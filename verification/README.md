# Verified models of the recorder, the sample printers and their libraries

A Dafny model of the parts of the DDS tool `cddsctl`, and of the libraries it carries along under
`3rd_party/`, whose correctness cannot be seen from any one function. `dafny verify dfyconfig.toml`
checks all of it. Code that changes state is modelled by classes and by methods with loops; each such
method is proved equal to a function of the old state, and the promises are proved about those functions
and about whole runs of them.

## What is modelled

**CRC32 of MCAP files** (`Crc32`, `Crc32Detection`, `Crc32Generator`, `Crc32Check`, `Crc32Update`). Machine
words are sequences of bits. The constructor of the lookup tables and the streaming update, with its byte-wise
prefix that depends on the address, its 8-byte rounds and its tail, are proved equal to the one-bit shift register of RFC 1952,
section 8. What the register holds is the remainder of the message modulo the generator polynomial, given by its
exponents, and the published check value comes out. The register is linear and invertible, so the checksum composes
over concatenation, is injective in its start value, and detects every change within 32 consecutive bits.

**Decoding serialized samples** (`Bytes`, `XTypes`, `CdrReader`, `Decoding`, `JsonPrinter`, `YamlPrinter`,
`Lockstep`, `Divergence`, `CdrRoundTrip`, `Termination`, `ReadOrder`). A sample in PLAIN_CDR (OMG DDS-XTypes
1.3, section 7.4.1) is printed by two independent recursive interpreters of a type mapping over one aligned cursor. Both
are modelled as written, over the cursor as an object, together with the trace of their memory accesses.
Proved: termination on every buffer and every mapping whose reference cycles pass through sequences (with
an exact characterization of those mappings), forward-only reading inside the buffer, lockstep of the two
printers and the exact points where they part, and the round trip at every offset, behind any prefix and
before any suffix. IDL lets a type contain itself through a sequence only, so every type that IDL can express
has its measure.

**The recorder** (`McapWriter`, `TypesCollection`, `Recorder`, `RecorderCode`, `RecorderRuns`,
`RecorderRounds`, `RecorderContents`, `RecorderIntegrity`, `RecorderSchemas`, `RecorderOverflow`,
`RecorderRetention`, `RecorderSize`, `RecorderGuarantees`, `RecorderThreads`). Discovery, the beginning,
samples and limit check of a polling round, and control calls are the steps of a state machine over readers,
types, the MCAP writer and its files, in any order; the objects of `RecorderCode` and `McapWriter` perform exactly those steps.
Over every run, with any number of splits: the files hold, in order, exactly the samples that were not
dropped, the counters agree with them, messages lead to their channels and channels to the schemas of their types,
the newest files are kept under their numbers, and their size is bounded. `RecorderThreads` models the control
thread and the polling thread again at the granularity of single loads and stores of shared variables, and
proves that `stop` is safe and returns under every interleaving.

**The interval tree of MCAP chunks** (`IntervalTree`). Construction by recursive partition and the pruned
searches agree with a linear scan, for every list, depth and bucket size; none of the constructor's
assertions can fail.

**Logging** (`RotatingFileSink`, `Decimal`, `CircularQueue`, `ThreadPool`). The rotating sink over a small
file system keeps a suffix of everything written, cut greedily into its files. The ring buffer refines a bounded
FIFO; the thread pool's terminate-token protocol completes every job that was not overrun under every
interleaving, and overruns only the oldest jobs of a full queue.

**Arithmetic and parsing** (`IsoWeek`, `KeyValueMap`, `FrequencyStats`). ISO week numbers against counting
Thursdays, the MCAP key-value map parser against its format, and the sliding-window rates of `cddsctl hz`.

## Where the code does not do what it says

- The comment on the CRC update promises single bytes up to an aligned address; the mask tests bit two of
  the address instead. When the rounds do begin aligned is `Crc32Update.AlignmentExact`; two addresses where
  the promise fails are in `Crc32Update.AlignmentMissed`. The result is right for every address regardless
  (`Crc32Update.Update`).
- Channel and schema ids are 16 bits wide and wrap around: the 65536th topic of a file gets the id zero, which
  means no channel, and from the 65537th on messages carry the channel of another topic. Exactly which is
  `RecorderIntegrity.CarriesExactly`, for schemas `RecorderIntegrity.DescribesExactly`; a run is
  `RecorderOverflow.WrongChannel`.
- `IntervalTree::is_valid` starts its upper bound at the smallest scalar and only lowers it, so it says
  nothing about the stops on the left (`IntervalTree.IsValidExact`); what it leaves open is
  `IntervalTree.WellFormedExactly`. The weakness cannot be reached: the constructor is the only way to a
  nonempty tree, and it builds well-formed ones only (`IntervalTree.Build`).
- The YAML printer does not consume list elements that are enums or unions. Such lists agree with JSON only
  if they are empty; when accesses and offsets agree as well, and where everything behind is misread, is said
  exactly, for sequences and arrays of both, by `Divergence.EnumSequencesDiverge`,
  `Divergence.EnumArraysDiverge`, `Divergence.UnionSequencesDiverge` and `Divergence.UnionArraysDiverge`.
- Integral union discriminators are read eight bytes wide whatever their type, and cut to 32 bits. Where the
  cursor stops is `CdrRoundTrip.DiscriminatorExact`; which tags are decoded, `CdrRoundTrip.UnionTagExact`;
  failing inputs, `CdrRoundTrip.WideTagTruncated` and `CdrRoundTrip.NarrowTagMissed`.
- The guard on string lengths is evaluated in 32 bits; the exact condition under which it fails is
  `CdrReader.StringGuardExact`, an input is `ReadOrder.GuardFails`, and the condition on a whole buffer under
  which every decode completes is `ReadOrder.CompletesExactly`. Otherwise the outcome may be `OutOfBounds`,
  and nothing is claimed past it.
- A key-value map whose byte count lies within four of 2^32 is accepted and read as empty
  (`KeyValueMap.AcceptedExactly`, `KeyValueMap.RoundTripExact`; an input is `KeyValueMap.LongValueLost`).
- A limit-triggered end need not leave a stopped, closed recorder: a pause just before it leaves the file
  open with no thread to write to it (`RecorderThreads.PauseLeavesFileOpen`), a pause or resume that stores
  just after it hides it (`RecorderThreads.PauseHidesTheEnd`). The exact condition is
  `RecorderThreads.EndExactly`; without pauses every end is clean (`RecorderThreads.EndWithoutPause`).
- A thread pool whose queue has no room can never be destroyed (`ThreadPool.DestructorCanEnd`; an input is
  `ThreadPool.PoolWithoutRoom`).

## Reading notes

- `Rank` arguments of the decoder are ghost: they carry the termination measure. `Termination` proves that
  they exist exactly for acyclic mappings and never influence what either printer decodes.
- `RecorderRounds.RoundIsRun` ties the loop body of the polling thread, as a method performs it, to the finer
  steps that the theorems about runs are about.
- The model's interval scalar is the unsigned 64-bit time; the sum in the center wraps around, and the
  results do not depend on it.
- `hide` statements only keep definitions away from the solver; they assume nothing.

## Model

| member | source | states |
|---|---|---|
| Crc32.StepsXor | 3rd_party/mcap/include/mcap/crc32.hpp:34-42 | any number of register steps is linear over exclusive-or |
| Crc32.StepsInjective | 3rd_party/mcap/include/mcap/crc32.hpp:34-42 | any number of register steps loses nothing: two registers that end equal were equal |
| Crc32.Peel | 3rd_party/mcap/include/mcap/crc32.hpp:45-48 | the low byte and the other three bytes of a register advance independently of each other |
| Crc32.FoldWord | 3rd_party/mcap/include/mcap/crc32.hpp:56-59 | up to four bytes may enter the register at once as one little-endian word |
| Crc32.FoldConcat | 3rd_party/mcap/include/mcap/crc32.hpp:68-74 | the checksum is streaming: two updates over two pieces equal one update over their concatenation |
| Crc32Detection.FoldInjective | 3rd_party/mcap/include/mcap/crc32.hpp:74-101 | for fixed data, different start values give different results |
| Crc32Detection.FoldShortInjective | 3rd_party/mcap/include/mcap/crc32.hpp:74-101 | from the same start value, inputs of equal length up to four bytes have equal results only if they are equal |
| Crc32Detection.BurstDetected | 3rd_party/mcap/include/mcap/crc32.hpp:74-101 | inputs of equal length that differ at most within four consecutive bytes have equal results if and only if they are equal, whatever surrounds the run |
| Crc32Detection.FoldIsBits | 3rd_party/mcap/include/mcap/crc32.hpp:34-42 | folding bytes is feeding their bits to the register one by one, lowest first |
| Crc32Detection.BitBurstDetected | 3rd_party/mcap/include/mcap/crc32.hpp:74-101 | inputs that differ at most within 32 consecutive bits, which may lie across five bytes, have equal results if and only if they are equal |
| Crc32Detection.UpdatesAreOne | 3rd_party/mcap/include/mcap/crc32.hpp:68-74 | any number of updates over any pieces equals one update over their concatenation |
| Crc32Detection.ChecksumDetects | 3rd_party/mcap/include/mcap/crc32.hpp:63-106 | the same for whole checksums, from the all-ones initial value over any number of updates, however either input is cut, to the final inversion |
| Crc32Update.EntryMeaning | 3rd_party/mcap/include/mcap/crc32.hpp:33-48 | entry 256*k+b of the tables is byte b followed by k zero bytes, for every k, although the constructor computes it from earlier entries |
| Crc32Update.FillFirst | 3rd_party/mcap/include/mcap/crc32.hpp:33-44 | the first loop of the constructor fills the first 256 entries by eight unrolled register steps each |
| Crc32Update.FillOthers | 3rd_party/mcap/include/mcap/crc32.hpp:45-49 | the second loop fills all other entries by one lookup among the entries that are already there |
| Crc32Update.Crc32Table.constructor | 3rd_party/mcap/include/mcap/crc32.hpp:26-49 | the eight tables hold exactly the defined entries |
| Crc32Update.Crc32Table.At | 3rd_party/mcap/include/mcap/crc32.hpp:51-53 | a lookup in table k gives the register after that byte and k zero bytes |
| Crc32Update.GetUint32LE | 3rd_party/mcap/include/mcap/crc32.hpp:56-59 | four bytes are assembled least significant first |
| Crc32Update.FoldEight | 3rd_party/mcap/include/mcap/crc32.hpp:86-93 | eight bytes enter the register as two words, advanced by 64 and by 32 steps |
| Crc32Update.RoundIsFold | 3rd_party/mcap/include/mcap/crc32.hpp:88-93 | the eight lookups of one round, in the order of the code, fold eight bytes |
| Crc32Update.OneByte | 3rd_party/mcap/include/mcap/crc32.hpp:78-98 | the single-byte line of the first and last loop folds one byte |
| Crc32Update.EightBytes | 3rd_party/mcap/include/mcap/crc32.hpp:87-94 | one iteration of the middle loop folds eight bytes |
| Crc32Update.Prefix | 3rd_party/mcap/include/mcap/crc32.hpp:75-80 | the first loop folds single bytes up to the offset that the address decides |
| Crc32Update.AlignmentExact | 3rd_party/mcap/include/mcap/crc32.hpp:75-80 | with four bytes or more the 8-byte rounds begin at a multiple of four if and only if the data do or bit two of their address is set; a set bit makes it a multiple of eight |
| Crc32Update.AlignmentMissed | 3rd_party/mcap/include/mcap/crc32.hpp:75-80 | inputs: from address 1 the rounds begin at once, unaligned; from address 4, which is aligned, after four single bytes |
| Crc32Update.Update | 3rd_party/mcap/include/mcap/crc32.hpp:74-101 | for every start value, data, length and base address, the update with its address-dependent prefix, 8-byte rounds and tail equals the bit-by-bit division by the generator over all bytes |
| Crc32Generator.RegisterStep | 3rd_party/mcap/include/mcap/crc32.hpp:35-36 | one step of the register moves it up one place and leaves its remainder modulo the generator x^32+x^26+x^23+x^22+x^16+x^12+x^11+x^10+x^8+x^7+x^5+x^4+x^2+x+1 over GF(2) |
| Crc32Generator.FoldIsRemainder | 3rd_party/mcap/include/mcap/crc32.hpp:33-61 | for every register and all data, the folded register is the remainder, modulo that generator, of the register moved up by the length of the data plus the message moved up by 32 places |
| Crc32Generator.RemainderUnique | 3rd_party/mcap/include/mcap/crc32.hpp:33-61 | that remainder is the only one, so the checksum is determined by the exponents of the generator |
| Crc32Check.CheckValue | 3rd_party/mcap/include/mcap/crc32.hpp:63-106 | the checksum of the nine characters 123456789, from the initial value to the final inversion, is the published check value 0xcbf43926 |
| CdrReader.PrimitiveAt | include/cddsctl/dds/CdrReader.hpp:17-33 | a read moves forward, never beyond the size rounded up to eight; an access lies inside the buffer, and without one the value is zero |
| CdrReader.PrimitiveExactly | include/cddsctl/dds/CdrReader.hpp:17-33 | the number is read at the next multiple of its width if it lies inside the buffer there; if not the cursor stays at that multiple and the value is zero |
| CdrReader.AlignUpBounds | include/cddsctl/dds/CdrReader.hpp:19-25 | aligning moves the offset by less than the width and never past the size rounded up to eight |
| CdrReader.StringGuardExact | include/cddsctl/dds/CdrReader.hpp:36-44 | the 32-bit length guard lets a copy leave the buffer exactly when the end offset wraps around to one inside it |
| CdrReader.StringExact | include/cddsctl/dds/CdrReader.hpp:36-44 | zero length and a string that does not fit give the empty text right behind the length; otherwise the text is the bytes behind the length without the last |
| CdrReader.IStream.ReadPrimitive | include/cddsctl/dds/CdrReader.hpp:17-33 | value, new offset and access are those of the specification |
| CdrReader.IStream.ReadString | include/cddsctl/dds/CdrReader.hpp:36-44 | text, new offset and accesses are those of the specification, as long as the guard is sound |
| CdrReader.FindStructByHash | include/cddsctl/dds/CdrReader.hpp:67-86 | the first struct object registered completely under the hash |
| CdrReader.FindEnumByHash | include/cddsctl/dds/CdrReader.hpp:89-108 | the first enum object registered completely under the hash |
| CdrReader.FindUnionByHash | include/cddsctl/dds/CdrReader.hpp:111-130 | the first union object registered completely under the hash |
| XTypes.FindStructExactly | include/cddsctl/dds/CdrReader.hpp:67-86 | a struct is found if and only if it stands at the least index with a complete identifier, that hash and a complete struct object; none if and only if no index has these |
| XTypes.FindEnumExactly | include/cddsctl/dds/CdrReader.hpp:89-108 | the same for an enum |
| XTypes.FindUnionExactly | include/cddsctl/dds/CdrReader.hpp:111-130 | the same for a union |
| Bytes.LittleEndianDigits | include/cddsctl/dds/CdrReader.hpp:27-28 | byte i of a stored number counts its multiples of 256^i |
| Bytes.SignedIs | src/dds/JsonPrinter.cpp:47-58 | a signed number is the unsigned one modulo 256^width, in the range around zero |
| Decoding.PrimitivesExactly | src/dds/JsonPrinter.cpp:33-66 | for each kind its width in bits and what it shows: signed and unsigned numbers, characters, any byte but zero as true, and the bits of floating-point numbers |
| Decoding.EnumNodeExactly | src/dds/JsonPrinter.cpp:176-186 | a name is printed if and only if it is that of the literal at the least index with the value, and the number if and only if there is none |
| Decoding.SelectedExactly | src/dds/JsonPrinter.cpp:243-258 | a member is selected if and only if it stands at the least index whose labels contain the tag |
| Decoding.DiscriminatorWidths | src/dds/JsonPrinter.cpp:232-239 | eight bytes are taken if and only if the discriminator is a boolean, byte or integer |
| Decoding.TotalSize | src/dds/JsonPrinter.cpp:144-147 | the loop over the bounds multiplies up in 32 bits |
| Decoding.LiteralOf | src/dds/JsonPrinter.cpp:176-186 | the first literal with the value names it; otherwise the number is printed |
| Decoding.SelectedIn | src/dds/JsonPrinter.cpp:243-258 | a member is selected if and only if some member carries the label |
| JsonPrinter.Value | src/dds/JsonPrinter.cpp:97-199 | decoding a value terminates on every buffer by the measure (bytes left, type rank), never moves back and never passes the size rounded up to eight |
| JsonPrinter.Elements | src/dds/JsonPrinter.cpp:69-94 | the same for any number of list elements, even those that occupy no bytes |
| JsonPrinter.Members | src/dds/JsonPrinter.cpp:202-218 | the same for struct members in order |
| JsonPrinter.Union | src/dds/JsonPrinter.cpp:221-261 | the same for a union |
| JsonPrinter.BuildPrimitive | src/dds/JsonPrinter.cpp:33-66 | each kind is read at its own width and interpreted with its own sign |
| JsonPrinter.BuildValue | src/dds/JsonPrinter.cpp:97-199 | the mutually recursive builder terminates and returns the specified tree, offset and accesses |
| JsonPrinter.BuildArray | src/dds/JsonPrinter.cpp:69-80 | the loop builds the specified list |
| JsonPrinter.BuildSequence | src/dds/JsonPrinter.cpp:83-94 | the length prefix and the loop build the specified list |
| JsonPrinter.BuildStruct | src/dds/JsonPrinter.cpp:202-218 | the loop assigns the members in order, a repeated name overwriting the earlier value |
| JsonPrinter.BuildUnion | src/dds/JsonPrinter.cpp:221-261 | the discriminator and the first member carrying its label are decoded |
| JsonPrinter.ReadDiscriminator | src/dds/JsonPrinter.cpp:228-239 | eight bytes for every integral kind, four for everything else, cut to 32 bits |
| JsonPrinter.PutExactly | src/dds/JsonPrinter.cpp:207-215 | assigning a member keeps every other one in its place; the first of that name gets the value, and a new name goes to the end |
| YamlPrinter.Value | src/dds/YamlPrinter.cpp:172-304 | formatting a value terminates on every buffer, never moves back and never passes the size rounded up to eight |
| YamlPrinter.Element | src/dds/YamlPrinter.cpp:119-133 | the same for a list element, where a reference is followed to a struct only |
| YamlPrinter.Elements | src/dds/YamlPrinter.cpp:109-169 | the same for any number of list elements |
| YamlPrinter.Members | src/dds/YamlPrinter.cpp:372-399 | the same for struct members |
| YamlPrinter.Union | src/dds/YamlPrinter.cpp:307-369 | the same for a union |
| YamlPrinter.FormatPrimitive | src/dds/YamlPrinter.cpp:45-106 | each kind is read at its own width and interpreted with its own sign |
| YamlPrinter.FormatValue | src/dds/YamlPrinter.cpp:172-304 | the mutually recursive formatter terminates and writes the specified tree from the specified accesses |
| YamlPrinter.FormatElement | src/dds/YamlPrinter.cpp:119-133 | the body of both list loops |
| YamlPrinter.FormatArray | src/dds/YamlPrinter.cpp:109-135 | the loop writes the specified list |
| YamlPrinter.FormatSequence | src/dds/YamlPrinter.cpp:138-169 | the length prefix, the early return for an empty list and the loop write the specified list |
| YamlPrinter.FormatStructMembers | src/dds/YamlPrinter.cpp:372-399 | the loop writes every member in order, repeated names included |
| YamlPrinter.FormatUnion | src/dds/YamlPrinter.cpp:307-369 | the discriminator and the first member carrying its label are written |
| YamlPrinter.FormatDiscriminator | src/dds/YamlPrinter.cpp:314-331 | the four-way test for the discriminator width, whose third case can never be taken |
| Lockstep.PrintersAgree | src/dds/YamlPrinter.cpp:172-304 | on every buffer, well formed or truncated, and every type in which no list element resolves to an enum or union, whatever else its mapping describes, both printers perform the same accesses and end at the same offset; with distinct member names in the types it leads to they also print the same tree |
| Lockstep.UndescribedReadsNothing | src/dds/JsonPrinter.cpp:190-197 | for a reference under whose hash nothing is described and for an unsupported type both printers show null, for a list without an element type the empty list, and neither reads anything |
| Lockstep.ScopeIsPlain | src/dds/YamlPrinter.cpp:109-169 | the types a type leads to, along any path of references, are all that its decoding depends on |
| Lockstep.ValuesAgree | src/dds/YamlPrinter.cpp:172-304 | the same relative to any set of hashes that is closed under references |
| Lockstep.PutFresh | src/dds/JsonPrinter.cpp:207-215 | assigning to a new name appends, which is where JSON objects and YAML mappings coincide |
| Divergence.SkidExact | src/dds/JsonPrinter.cpp:97-261 | a completed JSON decode reads nothing if and only if no access fits, which depends on the size of the buffer and not on its bytes; it then ends at the computed offset |
| Divergence.SkidRepeats | src/dds/JsonPrinter.cpp:76-92 | a list reads nothing, or stays where it is, if and only if its first element does |
| Divergence.SequencesPart | src/dds/YamlPrinter.cpp:152-168 | on a sequence of references that lead to no struct: same accesses, same offset, and same everything each have their exact condition |
| Divergence.ArraysPart | src/dds/YamlPrinter.cpp:118-134 | the same for arrays, at any offset |
| Divergence.EnumSequencesDiverge | src/dds/YamlPrinter.cpp:152-168 | on a sequence of enums the printers agree if and only if the length is zero; accesses and offsets are the same if and only if the length is zero or the buffer ends behind it |
| Divergence.EnumArraysDiverge | src/dds/YamlPrinter.cpp:118-134 | on an array of enums they agree if and only if it has no element; accesses are the same if and only if it has none or the buffer ends before the next aligned word |
| Divergence.UnionSequencesDiverge | src/dds/YamlPrinter.cpp:152-168 | on a sequence of unions they agree if and only if the length is zero; once a discriminator fits, the accesses differ and JSON ends further on |
| Divergence.UnionArraysDiverge | src/dds/YamlPrinter.cpp:118-134 | the same for arrays of unions |
| Divergence.UnionSkid | src/dds/JsonPrinter.cpp:228-258 | one union reads nothing if and only if its discriminator does not fit and neither does anything of the member that label zero selects |
| Divergence.SameAccessesDifferentTrees | src/dds/YamlPrinter.cpp:152-161 | an input: one enum announced and nothing behind it gives the same accesses and offsets but different trees |
| Divergence.YamlStaysBehind | src/dds/YamlPrinter.cpp:152-161 | an input: with one enum, or one union, behind the length YAML ends in front of it and JSON behind it |
| CdrRoundTrip.ValueInverts | src/dds/JsonPrinter.cpp:97-199 | wherever a buffer holds the PLAIN_CDR encoding of a value for that offset, the builder returns the value and stops exactly at the end of the encoding |
| CdrRoundTrip.RoundTrip | src/dds/JsonPrinter.cpp:69-261 | the round trip behind any prefix and before any suffix, for nested structs, strings, sequences, arrays, enums and unions |
| CdrRoundTrip.YamlRoundTrip | src/dds/YamlPrinter.cpp:109-399 | the same value comes out of the YAML printer for every type on which the two printers agree |
| CdrRoundTrip.UnionInverts | src/dds/JsonPrinter.cpp:221-261 | a union decodes to its discriminator and the member it selects, or to the discriminator alone if no label matches |
| CdrRoundTrip.DiscriminatorExact | src/dds/JsonPrinter.cpp:232-239 | the cursor stops right behind a discriminator, on every buffer and at every offset, if and only if the discriminator is an enum or one of the two 64-bit kinds |
| CdrRoundTrip.UnionTagExact | src/dds/JsonPrinter.cpp:228-258 | a tag is shown, and the member it selects decoded from right behind it, in every union and wherever a buffer holds it, if and only if the decoder takes as many bytes as the discriminator has and the tag fits 32 bits signed |
| CdrRoundTrip.DiscriminatorsShown | src/dds/JsonPrinter.cpp:232-239 | all values of a discriminator are shown if and only if it is an enum |
| CdrRoundTrip.WideTagTruncated | src/dds/JsonPrinter.cpp:233-236 | an input: the 64-bit tag 2^32 + 1 is shown as 1 and selects case 1 |
| CdrRoundTrip.NarrowTagMissed | src/dds/JsonPrinter.cpp:233-234 | an input: a 32-bit tag in front of one byte is not read at all and shown as 0 |
| CdrRoundTrip.ElementCountIsProduct | src/dds/JsonPrinter.cpp:144-147 | the element count is the product of the bounds modulo 2^32, however often the running product wraps |
| CdrRoundTrip.PrimitiveInverts | include/cddsctl/dds/CdrReader.hpp:17-33 | an aligned little-endian number is read back and only padding is skipped |
| CdrRoundTrip.StringInverts | include/cddsctl/dds/CdrReader.hpp:36-44 | a length-prefixed, zero-terminated string is read back without its terminator |
| Termination.StratifiedExactly | src/dds/JsonPrinter.cpp:97-261 | the termination measure exists if and only if no type contains itself without a sequence in between |
| Termination.AcyclicStratified | src/dds/JsonPrinter.cpp:97-261 | a mapping without such a cycle has a rank, found by the longest way down |
| Termination.ValueIgnoresRank | src/dds/JsonPrinter.cpp:97-261 | what either printer decodes does not depend on which measure proves that decoding ends |
| ReadOrder.JsonInOrder | src/dds/JsonPrinter.cpp:97-261 | a JSON decode completes if no aligned word of the buffer wraps, and its accesses lie inside the buffer, between its start and end offsets, each behind the one before |
| ReadOrder.YamlInOrder | src/dds/YamlPrinter.cpp:172-399 | the same for every YAML decode, lists of enums and unions included |
| ReadOrder.AnyBufferIsReadForward | include/cddsctl/dds/CdrReader.hpp:17-44 | on arbitrary bytes and for every type both printers stay inside the buffer, read no byte twice and end at most at the size rounded up to eight |
| ReadOrder.CompletesExactly | include/cddsctl/dds/CdrReader.hpp:36-44 | both printers complete on a buffer, for every type and from every offset, if and only if no aligned word of it wraps as a string length |
| ReadOrder.GuardFails | include/cddsctl/dds/CdrReader.hpp:38-41 | an input: on the four bytes of the length 2^32 - 4 the guard lets the copy leave the buffer |
| IntervalTree.MakeInterval | 3rd_party/mcap/include/mcap/intervaltree.hpp:20-23 | an interval is stored with its smaller end first |
| IntervalTree.FilterPartition | 3rd_party/mcap/include/mcap/intervaltree.hpp:124-135 | every interval goes to exactly one of left, own and right |
| IntervalTree.Partition | 3rd_party/mcap/include/mcap/intervaltree.hpp:121-135 | the loop splits a sorted list into three sorted lists, and its two center assertions hold |
| IntervalTree.Build | 3rd_party/mcap/include/mcap/intervaltree.hpp:88-146 | for every list, depth and bucket sizes the tree holds a permutation of the input, is well formed, passes its own validity assertion, and every recursive call gets sorted input |
| IntervalTree.SearchIsScan | 3rd_party/mcap/include/mcap/intervaltree.hpp:149-191 | pruning by center and by first start drops nothing the query asks for |
| IntervalTree.VisitNear | 3rd_party/mcap/include/mcap/intervaltree.hpp:149-162 | the visit collects exactly the matching intervals of the unpruned nodes, in order |
| IntervalTree.FindOverlapping | 3rd_party/mcap/include/mcap/intervaltree.hpp:193-199 | returns, as a multiset, what scanning for overlap returns |
| IntervalTree.FindContained | 3rd_party/mcap/include/mcap/intervaltree.hpp:201-207 | returns, as a multiset, what scanning for containment returns |
| IntervalTree.VisitAll | 3rd_party/mcap/include/mcap/intervaltree.hpp:222-231 | visits left subtree, own intervals, right subtree, each interval once |
| IntervalTree.IndexAnswers | 3rd_party/mcap/include/mcap/intervaltree.hpp:88-231 | building an index over any list and asking it anything equals scanning the list |
| IntervalTree.QueriesMean | 3rd_party/mcap/include/mcap/intervaltree.hpp:172-191 | an interval passes the overlap query if and only if it shares a point with the range, and the containment query if and only if all of its points are in the range |
| IntervalTree.FilterPermutes | 3rd_party/mcap/include/mcap/intervaltree.hpp:193-207 | a scan gives the same multiset for every order of the list |
| IntervalTree.IsValidExact | 3rd_party/mcap/include/mcap/intervaltree.hpp:252-294 | the self-check accepts a tree if and only if its lists are sorted, no center with a left child is zero, and everything on the right starts behind the center; the upper bound it reports is always zero |
| IntervalTree.WellFormedAccepted | 3rd_party/mcap/include/mcap/intervaltree.hpp:252-294 | the self-check never rejects a tree that the constructor builds |
| IntervalTree.WellFormedExactly | 3rd_party/mcap/include/mcap/intervaltree.hpp:252-294 | a tree is well formed if and only if the self-check accepts it and moreover its intervals are stored smaller end first, each left subtree lies before its center, and no child is empty |
| IntervalTree.AcceptedIsNotEnough | 3rd_party/mcap/include/mcap/intervaltree.hpp:252-294 | on a tree that the constructor cannot build, the self-check accepts and a query misses an interval |
| IsoWeek.IsoWeekIsThursdayCount | 3rd_party/spdlog/include/spdlog/fmt/bundled/chrono.h:1031-1044 | for every date of year 1 or later, week year and week number are the year of the Thursday of that week and the count of Thursdays in it so far (ISO 8601:2004, section 3.2.2) |
| IsoWeek.WeeksOfYear | 3rd_party/spdlog/include/spdlog/fmt/bundled/chrono.h:1017-1026 | the number of weeks of a year is its number of Thursdays |
| IsoWeek.PhaseIsLastDay | 3rd_party/spdlog/include/spdlog/fmt/bundled/chrono.h:1019-1024 | the phase of a year is the weekday of its last day, with division truncating toward zero |
| IsoWeek.ThursdayOfWeek | 3rd_party/spdlog/include/spdlog/fmt/bundled/chrono.h:1027-1030 | the Thursday of a week is a Thursday of the year it falls in |
| IsoWeek.DaysClosed | 3rd_party/spdlog/include/spdlog/fmt/bundled/chrono.h:1019-1024 | leap years summed one by one give the closed form |
| KeyValueMap.KeyValueMapSize | 3rd_party/mcap/include/mcap/internal.hpp:51-57 | the length of the serialized entries modulo 2^32 |
| KeyValueMap.ParseUint32 | 3rd_party/mcap/include/mcap/internal.hpp:75-87 | four little-endian bytes, or an error if fewer remain |
| KeyValueMap.ParseStringView | 3rd_party/mcap/include/mcap/internal.hpp:104-116 | succeeds if and only if length and text lie in the remaining bytes, and returns the text |
| KeyValueMap.ParseEntries | 3rd_party/mcap/include/mcap/internal.hpp:164-182 | the loop stays inside the buffer and emplaces the parsed pairs in order; a wrapped end offset reads nothing |
| KeyValueMap.ParseKeyValueMap | 3rd_party/mcap/include/mcap/internal.hpp:149-183 | the method returns what the specification parses, on every buffer |
| KeyValueMap.AcceptedExactly | 3rd_party/mcap/include/mcap/internal.hpp:149-183 | a buffer is accepted if and only if its byte count fits it and, unless the end offset wraps, the counted bytes are a concatenation of key and value strings |
| KeyValueMap.ParseInvertsSerialize | 3rd_party/mcap/include/mcap/internal.hpp:164-181 | every concatenation of pairs parses to those pairs |
| KeyValueMap.ParsedIsSerialized | 3rd_party/mcap/include/mcap/internal.hpp:164-181 | whatever parses is the serialization of what it parses to |
| KeyValueMap.CutUnique | 3rd_party/mcap/include/mcap/internal.hpp:164-181 | a buffer can be cut into pairs in one way only |
| KeyValueMap.EmplaceAllFirstWins | 3rd_party/mcap/include/mcap/internal.hpp:180 | a repeated key keeps its first value and no other key is touched |
| KeyValueMap.RoundTripExact | 3rd_party/mcap/include/mcap/writer.inl:1151-1165 | for every map with distinct keys, strings of any length included, parsing its serialization, before any suffix, returns that map if and only if the byte count and its own four bytes fit in 32 bits |
| KeyValueMap.LongValueLost | 3rd_party/mcap/include/mcap/internal.hpp:159-166 | an input: a map with one value of 2^32 - 12 bytes comes back empty |
| FrequencyStats.RunIsWindowOfRecords | cli/commands/HzCommand.cpp:74-88 | after any run and for any window size the deque is the last timestamps that exceeded all before them |
| FrequencyStats.FrequencyStats.AddTimestamp | cli/commands/HzCommand.cpp:74-88 | keeps the deque equal to that window over everything ever added |
| FrequencyStats.FrequencyStats.Calculate | cli/commands/HzCommand.cpp:108-160 | describes the intervals of the window, or returns zeros below two timestamps |
| FrequencyStats.Intervals | cli/commands/HzCommand.cpp:117-125 | the test for positive intervals drops none |
| FrequencyStats.Extremes | cli/commands/HzCommand.cpp:131-140 | one loop computes sum, minimum and maximum |
| FrequencyStats.Summarize | cli/commands/HzCommand.cpp:116-159 | the rates are the reciprocals of the mean and extreme intervals |
| FrequencyStats.WindowStatistics | cli/commands/HzCommand.cpp:116-159 | the intervals sum to last minus first, min <= avg <= max, and the interval variance is at most (max - avg) * (avg - min) |
| FrequencyStats.RatesExactly | cli/commands/HzCommand.cpp:127-158 | the lowest rate times any interval is at most one and times some interval is one; the highest is at least one and one likewise |
| FrequencyStats.VarianceIs | cli/commands/HzCommand.cpp:144-150 | the variance is the mean of the squares less the square of the mean |
| FrequencyStats.DeviationExactly | cli/commands/HzCommand.cpp:142-156 | the mean rate times the mean interval is one, and the squared deviation of the rate is that of the intervals over the fourth power of the mean interval |
| FrequencyStats.SquaresBounded | cli/commands/HzCommand.cpp:145-150 | squares of deviations are bounded by a line through the extremes |
| CircularQueue.CircularQ.constructor | 3rd_party/spdlog/include/spdlog/details/circular_q.h:27-30 | an empty queue for max_items items with one slot more |
| CircularQueue.CircularQ.PushBack | 3rd_party/spdlog/include/spdlog/details/circular_q.h:49-62 | the ring is a bounded FIFO that drops its oldest item when full and counts it; pushes = stored + popped + overrun |
| CircularQueue.CircularQ.PopFront | 3rd_party/spdlog/include/spdlog/details/circular_q.h:99-102 | removes the oldest item and nothing else |
| CircularQueue.CircularQ.Front | 3rd_party/spdlog/include/spdlog/details/circular_q.h:66-74 | the oldest item |
| CircularQueue.CircularQ.Size | 3rd_party/spdlog/include/spdlog/details/circular_q.h:77-87 | the number of stored items, wrapped around or not |
| CircularQueue.CircularQ.At | 3rd_party/spdlog/include/spdlog/details/circular_q.h:91-95 | the i-th oldest item |
| CircularQueue.CircularQ.Empty | 3rd_party/spdlog/include/spdlog/details/circular_q.h:104-107 | true if and only if nothing is stored |
| CircularQueue.CircularQ.Full | 3rd_party/spdlog/include/spdlog/details/circular_q.h:109-117 | true if and only if a push would overrun an item |
| CircularQueue.OverrunWindow | 3rd_party/spdlog/include/spdlog/details/circular_q.h:53-60 | a push into a full ring leaves the stored items without the oldest, plus the new one |
| CircularQueue.PushWindow | 3rd_party/spdlog/include/spdlog/details/circular_q.h:53-54 | a push into a ring that is not full appends; the ring is full exactly when the next tail meets the head |
| CircularQueue.MpmcBlockingQueue.Enqueue | 3rd_party/spdlog/include/spdlog/details/mpmc_blocking_q.h:32-40 | appends without overrunning anything |
| CircularQueue.MpmcBlockingQueue.EnqueueNowait | 3rd_party/spdlog/include/spdlog/details/mpmc_blocking_q.h:43-50 | appends, dropping and counting the oldest item of a full queue |
| CircularQueue.MpmcBlockingQueue.Dequeue | 3rd_party/spdlog/include/spdlog/details/mpmc_blocking_q.h:70-79 | takes exactly the oldest item |
| ThreadPool.StepKeeps | 3rd_party/spdlog/include/spdlog/details/thread_pool-inl.h:45-134 | every critical section keeps the pool invariant: order, token count, and no lost or doubled job |
| ThreadPool.ShutdownIsComplete | 3rd_party/spdlog/include/spdlog/details/thread_pool-inl.h:45-134 | in every run jobs leave the queue in posting order; once the destructor has joined its last worker the queue is empty, each worker has taken one token, and every job that was not overrun has been processed exactly once |
| ThreadPool.OverrunExactly | 3rd_party/spdlog/include/spdlog/details/thread_pool-inl.h:88-98 | in every run the posted jobs are those of the run in order, as many jobs are overrun as posts that do not wait met a full queue, and none of the newest jobs, as many as the queue holds, is overrun |
| ThreadPool.StepOverruns | 3rd_party/spdlog/include/spdlog/details/mpmc_blocking_q.h:32-50 | a post that does not wait and meets a full queue overruns one job, and nothing else overruns any |
| ThreadPool.StepCountsDown | 3rd_party/spdlog/include/spdlog/details/thread_pool-inl.h:45-60 | after the destructor has started every step of every schedule brings its end one step closer |
| ThreadPool.NeverStuck | 3rd_party/spdlog/include/spdlog/details/thread_pool-inl.h:45-60 | with room for one item some thread can always move |
| ThreadPool.DestructorEnds | 3rd_party/spdlog/include/spdlog/details/thread_pool-inl.h:45-60 | every schedule is bounded, and one that takes all its steps has joined every worker |
| ThreadPool.CompleteSchedule | 3rd_party/spdlog/include/spdlog/details/thread_pool-inl.h:45-60 | from every reachable state there is a schedule on which the destructor returns |
| ThreadPool.DestructorCanEnd | 3rd_party/spdlog/include/spdlog/details/thread_pool-inl.h:16-60 | a pool can be destroyed if and only if its queue has room for an item |
| ThreadPool.PoolWithoutRoom | 3rd_party/spdlog/include/spdlog/details/thread_pool-inl.h:16-60 | an input: a pool of one thread over a queue of size zero is such a pool |
| ThreadPool.FatesPartition | 3rd_party/spdlog/include/spdlog/details/thread_pool-inl.h:88-98 | each job that left the queue was either taken by a worker or overrun |
| ThreadPool.AsyncPool.constructor | 3rd_party/spdlog/include/spdlog/details/thread_pool-inl.h:16-33 | an empty queue and idle workers |
| ThreadPool.AsyncPool.PostAsyncMsg | 3rd_party/spdlog/include/spdlog/details/thread_pool-inl.h:88-98 | posting performs the step of its overflow policy on the real queue |
| ThreadPool.AsyncPool.PostTerminate | 3rd_party/spdlog/include/spdlog/details/thread_pool-inl.h:49-52 | posting a token performs the token step |
| ThreadPool.AsyncPool.ProcessNextMsg | 3rd_party/spdlog/include/spdlog/details/thread_pool-inl.h:108-134 | one loop body of a worker takes and finishes a job, or takes a token and leaves |
| RotatingFileSink.SplitExactly | 3rd_party/spdlog/include/spdlog/details/file_helper-inl.h:157-177 | a name is split at its last dot if and only if something follows the dot and it neither begins the file's own name nor belongs to a folder; otherwise it stays whole |
| RotatingFileSink.CalcFilenameInjective | 3rd_party/spdlog/include/spdlog/sinks/rotating_file_sink-inl.h:55-65 | for every file name, different indices name different files |
| RotatingFileSink.FilenameExactly | 3rd_party/spdlog/include/spdlog/sinks/rotating_file_sink-inl.h:52-65 | file 0 has the base name; the name of file i splits into the extension of the base name and the rest, a dot and a numeral of i; without an extension the dot and numeral follow the whole name |
| RotatingFileSink.LoopSlots | 3rd_party/spdlog/include/spdlog/sinks/rotating_file_sink-inl.h:115-137 | after the descending loop each existing file has moved up by one, gaps have moved along, the oldest file stays only if nothing moves onto it, and file 0 is free |
| RotatingFileSink.RotatedSlots | 3rd_party/spdlog/include/spdlog/sinks/rotating_file_sink-inl.h:109-139 | the slots after a rotation, for every pattern of missing files |
| RotatingFileSink.RotatedLog | 3rd_party/spdlog/include/spdlog/sinks/rotating_file_sink-inl.h:109-139 | a rotation cuts the oldest file off the front of the log and nothing else |
| RotatingFileSink.SinkItLog | 3rd_party/spdlog/include/spdlog/sinks/rotating_file_sink-inl.h:75-95 | one message appends itself to the log, minus what its rotation dropped in front |
| RotatingFileSink.LogIsSuffixOfEverything | 3rd_party/spdlog/include/spdlog/sinks/rotating_file_sink-inl.h:27-139 | after any run on any initial files, the files max_files down to 0, oldest to newest, are a suffix of what they held before followed by everything written |
| RotatingFileSink.FilesAreChunks | 3rd_party/spdlog/include/spdlog/sinks/rotating_file_sink-inl.h:27-139 | after any run, from any files without a gap, file j holds exactly the j-th newest chunk of the greedy cut of the messages at max_size, for every j up to max_files, and exists exactly if there is such a chunk |
| RotatingFileSink.CutJoins | 3rd_party/spdlog/include/spdlog/sinks/rotating_file_sink-inl.h:79-94 | the greedy cut loses nothing and reorders nothing |
| RotatingFileSink.CutBounded | 3rd_party/spdlog/include/spdlog/sinks/rotating_file_sink-inl.h:84-92 | each chunk is within max_size or is one message |
| RotatingFileSink.CutTight | 3rd_party/spdlog/include/spdlog/sinks/rotating_file_sink-inl.h:79-94 | a file is rotated only when it has to be: each chunk with the first message behind it exceeds max_size |
| RotatingFileSink.CurrentFileBounded | 3rd_party/spdlog/include/spdlog/sinks/rotating_file_sink-inl.h:84-94 | after every message file 0 is within max_size or holds exactly that one oversized message |
| RotatingFileSink.FilesBounded | 3rd_party/spdlog/include/spdlog/sinks/rotating_file_sink-inl.h:27-139 | no other file is touched, and from no files at most max_files + 1 exist |
| RotatingFileSink.RotatingSink.constructor | 3rd_party/spdlog/include/spdlog/sinks/rotating_file_sink-inl.h:27-50 | opens, and rotates at once if asked to and the file is not empty |
| RotatingFileSink.RotatingSink.OpenFile | 3rd_party/spdlog/include/spdlog/details/file_helper-inl.h:32-83 | creates a missing file, empties it if asked to, keeps the rest |
| RotatingFileSink.RotatingSink.RenameFile | 3rd_party/spdlog/include/spdlog/sinks/rotating_file_sink-inl.h:144-149 | replaces the target by the source |
| RotatingFileSink.RotatingSink.RotateFiles | 3rd_party/spdlog/include/spdlog/sinks/rotating_file_sink-inl.h:109-139 | closes, renames downwards, reopens truncated |
| RotatingFileSink.RotatingSink.Log | 3rd_party/spdlog/include/spdlog/sinks/rotating_file_sink-inl.h:75-95 | writes one formatted message, rotating before it if needed |
| Decimal.ValueOfToString | 3rd_party/spdlog/include/spdlog/sinks/rotating_file_sink-inl.h:64 | the decimal numeral in a file name determines its number |
| Decimal.ToStringIsNumeral | 3rd_party/spdlog/include/spdlog/sinks/rotating_file_sink-inl.h:64 | it is a string of digits without a leading zero, of that value |
| McapWriter.GenerateFilenameInjective | src/record/McapWriter.cpp:94-118 | whatever the time stamps, different split indices name different files |
| McapWriter.FilenameExactly | src/record/McapWriter.cpp:94-118 | the name is the prefix, the time stamp behind an underscore if there is one, the index as a numeral behind an underscore if it is not negative, and the extension |
| McapWriter.McapFileWriter.OpenFile | src/record/McapWriter.cpp:23-60 | opens a new empty file; on an open writer it succeeds and changes nothing |
| McapWriter.McapFileWriter.ReopenFile | src/record/McapWriter.cpp:62-92 | closes, resets counters and id tables, opens the next file |
| McapWriter.McapFileWriter.CloseFile | src/record/McapWriter.cpp:120-132 | closes if open |
| McapWriter.McapFileWriter.AddSchema | src/record/McapWriter.cpp:134-167 | hands out one id per name and file |
| McapWriter.McapFileWriter.AddChannel | src/record/McapWriter.cpp:169-200 | hands out one id per topic and file |
| McapWriter.McapFileWriter.Write | src/record/McapWriter.cpp:202-231 | appends the message and counts it, or counts an error and changes nothing else |
| TypesCollection.Collection.Add | src/record/TypesCollection.cpp:8-48 | the first description of a type stays |
| TypesCollection.Collection.Register | src/record/TypesCollection.cpp:50-65 | the last type of a topic counts |
| TypesCollection.Collection.GetTypeForTopic | src/record/TypesCollection.cpp:86-93 | the type of the topic, or the empty name |
| RecorderCode.RecorderObject.constructor | src/record/Recorder.cpp:13-16 | the initial state |
| RecorderCode.RecorderObject.StartRecording | src/record/Recorder.cpp:57-100 | performs the start step, or nothing if not stopped; a start whose file does not open leaves the recorder stopped and can be repeated |
| RecorderCode.RecorderObject.GoLive | src/record/Recorder.cpp:79-95 | what follows once the first file is open |
| RecorderCode.RecorderObject.PauseRecording | src/record/Recorder.cpp:144-150 | pauses if running |
| RecorderCode.RecorderObject.ResumeRecording | src/record/Recorder.cpp:152-158 | resumes if paused |
| RecorderCode.RecorderObject.StopRecording | src/record/Recorder.cpp:102-142 | performs the stop step |
| RecorderCode.RecorderObject.ShutDown | src/record/Recorder.cpp:282-296 | stops discovery, closes the file, stores Stopped |
| RecorderCode.RecorderObject.OnEndpointDiscovered | src/record/Recorder.cpp:185-235 | performs the discovery step on the reader, type, schema and channel tables |
| RecorderCode.RecorderObject.AnnounceTopic | src/record/Recorder.cpp:213-228 | registers schema and channel unless they are known |
| RecorderCode.RecorderObject.RecordOne | src/record/Recorder.cpp:342-364 | counts every sample and delivers it unless writing is disabled or the channel is missing |
| RecorderCode.RecorderObject.DeliverSample | src/record/Recorder.cpp:358-363 | writes the sample and counts it, or the write fails |
| RecorderCode.RecorderObject.RecordReader | src/record/Recorder.cpp:263-269 | the loop over the samples of one reader |
| RecorderCode.RecorderObject.PollOnce | src/record/Recorder.cpp:252-272 | one undisturbed polling round: all readers, then the limits |
| RecorderCode.RecorderObject.CheckAllLimits | src/record/Recorder.cpp:366-396 | splits or ends when a limit is reached |
| RecorderCode.RecorderObject.SplitFile | src/record/Recorder.cpp:398-422 | performs the split step, or ends polling if the next file does not open |
| RecorderCode.RecorderObject.ContinueIn | src/record/Recorder.cpp:413-418 | announces the topics in the new file, adds it to the list and trims that |
| RecorderCode.RecorderObject.CheckNumSplits | src/record/Recorder.cpp:424-438 | the loop removes exactly the oldest files beyond max_splits, in order |
| RecorderCode.RecorderObject.ReRegisterAll | src/record/Recorder.cpp:440-460 | the loop over the readers announces each topic whose type is known |
| RecorderRuns.StepConserves | src/record/Recorder.cpp:185-460 | every step keeps counters and files in balance |
| RecorderRuns.RunConserves | src/record/Recorder.cpp:185-460 | so does every run, with any number of splits and with discovery, pause and resume between any two samples of a round |
| RecorderRuns.RecordSampleFrame | src/record/Recorder.cpp:342-364 | recording a sample adds at most a message to the open file and moves counters, and touches nothing else |
| RecorderRounds.RoundIsRun | src/record/Recorder.cpp:246-272 | an undisturbed polling round is a run of the state machine, so what holds of all runs holds of it |
| RecorderRuns.ReRegisterEffect | src/record/Recorder.cpp:440-460 | after re-registration exactly the old topics and the walked topics with a known type have a channel |
| RecorderGuarantees.EveryMessageAccounted | src/record/Recorder.cpp:342-422 | from construction on, messages_recorded and bytes_recorded are the messages and payload bytes in all files, and messages_received is the messages recorded plus the samples dropped for disabled writing, missing channel or failed write |
| RecorderContents.FilesHoldTheSamples | src/record/Recorder.cpp:342-422 | from construction on, topic, log time and payload of the messages in the closed files and then the open one are, in order, those of the samples of the run that were neither dropped nor failed to be written |
| RecorderGuarantees.KeptExactly | src/record/Recorder.cpp:342-364 | after any run a sample is kept if and only if the last disk check found space, the output works, and a file is open with a channel of its topic whose 16-bit id is not zero |
| RecorderContents.EnabledAfterRun | src/record/Recorder.cpp:462-508 | writing is enabled if and only if no sample has met a disk check or the last check found space |
| RecorderContents.TablesAfterRun | src/record/Recorder.cpp:185-235 | after any run the readers are the topics for which creating one worked, the counter of topics counts the accepted writers, each topic has the type it was announced with last, and each type the text it was announced with first |
| RecorderGuarantees.LimitsExactly | src/record/Recorder.cpp:366-422 | after a check at which the duration or the size limit is met the old file is archived and recording goes on in a new empty file at the end of the list, or polling has ended; any other check changes nothing |
| RecorderGuarantees.StartExactly | src/record/Recorder.cpp:57-100 | after any run, a start whose file opens leaves the recorder running, polling and discovering over one empty file named after time stamp and index; any other start can be repeated |
| RecorderGuarantees.StopEndsEverything | src/record/Recorder.cpp:102-142 | after any run, a stop, and the end of a polling thread that sees Running, leave the recorder stopped, not polling, not discovering, and without an open file |
| RecorderGuarantees.EveryFileSelfContained | src/record/Recorder.cpp:185-460 | from construction on, in every file every message carries the id of a channel of that file and every channel the id of a schema of that file or zero, zero only from 65536 schemas on; a message carries the channel of its own topic, and a channel the schema of the type its topic had, if and only if that is among the first 65535; and while a file is open every reader's topic with a type name has a channel |
| RecorderSchemas.EveryFileAnnounced | src/record/Recorder.cpp:185-460 | from construction on, in every file each schema has the text with which its type was announced first, and each channel a type with which its topic was announced |
| RecorderSchemas.NewChannelsAreCurrent | src/record/Recorder.cpp:213-228 | a channel gets the type that its topic has when it is registered, at its discovery or at a split |
| RecorderIntegrity.DescribesExactly | src/record/McapWriter.cpp:134-200 | a channel's schema id names the schema of its type if and only if that is among the first 65535 of the file |
| RecorderGuarantees.NewestFilesKept | src/record/Recorder.cpp:398-438 | from construction on, with splitting the kept files are exactly the newest max_splits opened ones in order, or all without a limit, and the others were removed, oldest first; up to 2^31 files the i-th one has the index i in its name, the open file is the last kept one and no removed path is its path; without splitting there is one file, without an index, and nothing is removed |
| RecorderIntegrity.CarriesExactly | src/record/McapWriter.cpp:169-200 | a message's id is its topic's position in the file modulo 2^16, so it carries its own topic's channel if and only if that is among the first 65535 |
| RecorderIntegrity.IndexedMore | src/record/McapWriter.cpp:141-199 | handing out the next id keeps names distinct and each id its own name's, as far as 16 bits tell |
| RecorderIntegrity.SoundIsSelfContained | src/record/McapWriter.cpp:134-231 | what the ids of a sound file mean for its reader |
| RecorderOverflow.WrongChannel | src/record/Recorder.cpp:185-235 | a run, for every configuration: the sample of the 65537th topic is written under the first topic's channel |
| RecorderIntegrity.StepIntegrity | src/record/Recorder.cpp:185-460 | every step keeps every file sound and every reader covered, with no limit on the number of channels or schemas |
| RecorderIntegrity.RunIntegrity | src/record/Recorder.cpp:185-460 | so does every run |
| RecorderIntegrity.SplitCoverage | src/record/Recorder.cpp:398-460 | right after a split a topic has a channel if and only if it has a reader and its type has a name |
| RecorderRetention.RunRetains | src/record/Recorder.cpp:398-438 | every run keeps the list of kept files, the removed files and the split index in step |
| RecorderRetention.Retention | src/record/Recorder.cpp:424-438 | that many files, the newest, are kept, and the open one is the last of them and not removed |
| RecorderRetention.PathsNumbered | src/record/Recorder.cpp:398-418 | the i-th opened file is named after prefix, time stamp and index i; the only file without splitting has no index |
| RecorderRetention.PathsDiffer | src/record/McapWriter.cpp:94-118 | two splits never share a path |
| RecorderRetention.NamesRepeatExactly | src/record/Recorder.cpp:401-403 | over all 32-bit split counts, two splits of one time stamp share a path if and only if they are the same or both are 2^31 or later |
| RecorderRetention.TrimSnoc | src/record/Recorder.cpp:430-437 | trimming after every split equals trimming once at the end |
| RecorderSize.RunBounded | src/record/Recorder.cpp:366-396 | in every run each file stays below max_file_size plus what one round can add |
| RecorderSize.PayloadBounded | src/record/Recorder.cpp:243-278 | with samples of at most S bytes every file, closed or open, holds less than max_file_size + 100 * readers polled * S bytes of payload |
| RecorderSize.SampleBounded | src/record/Recorder.cpp:263-269 | within a round the open file keeps room under the bound for all samples still to come |
| RecorderSize.RecordOneGrowth | src/record/Recorder.cpp:342-364 | one sample adds at most its own size |
| RecorderThreads.RunKeeps | src/record/Recorder.cpp:57-158 | the interleaving invariant holds in every run, one load or store at a time |
| RecorderThreads.StopIsSafe | src/record/Recorder.cpp:102-142 | whatever pauses, resumes, limits and splits interleave, when stop has returned the state is Stopped, the polling thread is joined, discovery is stopped and the file is closed |
| RecorderThreads.StoppedForGood | src/record/Recorder.cpp:102-142 | after that no call short of a new start changes this or gets a message accepted |
| RecorderThreads.AcceptedInRound | src/record/Recorder.cpp:263-269 | in a reachable state a message is accepted only over an open file, in a round of a recorder that is not stopped, before any stop has joined the thread |
| RecorderThreads.StopAdvances | src/record/Recorder.cpp:102-142 | every step of any thread brings the return of stop closer |
| RecorderThreads.StopNeverStuck | src/record/Recorder.cpp:105-109 | while stop waits some thread can move |
| RecorderThreads.StopReturns | src/record/Recorder.cpp:102-142 | every schedule that is long enough contains the return of stop |
| RecorderThreads.EndExactly | src/record/Recorder.cpp:280-296 | in every run that leaves the polling thread ended and the control thread between calls, the state is Stopped, the file closed and discovery off if and only if the thread's last load saw Running and no pause or resume stored after it |
| RecorderThreads.ExitDecides | src/record/Recorder.cpp:280-296 | from the exit on, if nothing more is called, the end is clean if and only if the state is Running there |
| RecorderThreads.EndWithoutPause | src/record/Recorder.cpp:280-296 | in every run without pause and stop an ended thread has left a stopped, closed recorder |
| RecorderThreads.PauseHidesTheEnd | src/record/Recorder.cpp:144-150 | a run: a pause that has loaded Running overwrites the Stopped of a limit-triggered end; file closed, thread ended, state Paused |
| RecorderThreads.PauseLeavesFileOpen | src/record/Recorder.cpp:280-288 | a run: a pause before the thread's last load leaves file and discovery open with no thread, and a resume then says Running |

## Left out

- Everything behind CycloneDDS and iceoryx calls: taken samples, discovered endpoints, type mappings, reader creation and disk checks are inputs of the steps.
- `deserialize_type_mapping`, `find_main_struct` and `find_struct_by_type_name`: the type mapping and the top-level type are given.
- Text layout, number formatting and quoting of both printers: value trees and access traces are compared, not characters; floating-point values are their bit patterns.
- XCDR2 alignment, foreign byte order, optional and mutable members, default union branches: the decoder does not implement them.
- JsonPrinter.Value: stated for buffers of at most 2^32 - 8 bytes, because 32-bit offsets wrap around beyond that.
- Lockstep.PrintersAgree: types that lead to lists whose elements resolve to enums or unions are outside it; `Divergence` says exactly where such a list itself parts, but not for types that have one further inside.
- IntervalTree.SortByStart: stands for `std::sort` by its contract, any sorted permutation, with an insertion sort as its body.
- IntervalTree.Build: an empty list at the root must become a leaf, as it does whenever both bucket sizes are nonzero, because the code takes the front of the list before partitioning it.
- `IntervalTree::extent`, `empty` and copying: no promise beyond their bodies.
- RotatingFileSink.RotatingSink.Log: opening, writing and renaming never fail, `/` is the only folder separator, and nothing else writes to the sink's files.
- CircularQueue.CircularQ.PushBack: the overrun counter is unbounded and never reset, and max_items is below the largest machine word.
- CircularQueue.MpmcBlockingQueue.Enqueue: waiting is a precondition, and condition variables and `dequeue_for` are not modelled.
- ThreadPool.ShutdownIsComplete: nobody posts once the destructor has started, as for any object under destruction; jobs do not throw.
- ThreadPool.CompleteSchedule: fairness of the scheduler is not modelled; every schedule is bounded and none is stuck instead.
- RecorderGuarantees.NewestFilesKept: from 2^31 splits on the index in the file name turns negative and is dropped by the code, so names repeat (`RecorderRetention.NamesRepeatExactly`).
- RecorderRuns.RunConserves: once a start has opened its file no second start follows; starts whose file does not open may be repeated.
- RecorderCode.RecorderObject.SplitFile: the limit check with its split is one step with respect to discovery, although the code walks the readers and clears the id tables without their locks; data races and the memory model are left out.
- State callbacks, `wait_for_completion`, logging and the time fields of the statistics: no effect on what is proved; reaching a duration limit is an input.
- RecorderSize.PayloadBounded: counts payload bytes, as the limit does; record headers, chunks and compression of the MCAP container are left out, as is the rest of the MCAP reader and writer.
- FrequencyStats.FrequencyStats.Calculate: over the reals, and with the square of the deviation in place of its root.
- IsoWeek.IsoWeekIsThursdayCount: years before 1 and inconsistent time structures are left out.
- IDL generation, topic discovery, configuration, topic filters, option parsing and the other logging sinks: easier than what is here, or dependent on libraries that are not part of this model.
