# The canonical CBOR codec, modelled and proved

Every remote call of the system travels as the bytes of one self-contained CBOR codec, generated twice: in Go
and in TypeScript. This project models both, the value tree, the encoders, the decoders and the record layer
above them, and proves what they promise to each other.

## What is modelled

* `Machine`, `CborTree`: bytes, 64-bit words, big-endian fields, the Go value tree. Containers are seen as a
  frame and a list of children, so most proofs are inductions over a list of trees.
* `Encoder`, `Decoder`: the Go code as it runs, appending to a buffer and moving a cursor. `Parser` is the
  decoder as a function of the remaining bytes; `Grammar` is an independent relation between trees and bytes.
* `Codec`, `Costs`: what follows for whole payloads, and what a decoding reserves and how long its canonical
  form is.
* `Float64`, `TsTree`, `TsCodec`: the TypeScript twin. A JavaScript number is its binary64 pattern, a string
  its UTF-8 bytes, a Map an ordered list with JavaScript's key equality.
* `Simulation`, `Twins`, `Echo`, `Transport`, `Lookups`: the two implementations against each other.
* `TsGrammar`, `SelfEcho`: what TypeScript accepts, and TypeScript on its own bytes.
* `KeyOrder`, `Fields`, `Collections`, `Records`, `Gatherings`, `GatheringReaders`, `GatheringLaws`: canonical
  key order, the generic helpers, five flat records and one list record that nests others.
* `Schema`, `RecordReaders`, `TsSchema`: which maps a record decoder refuses, and with which error, from schemas
  written out field by field.
* `Names`, `Vocabulary`, `Words`, `Wire`, `TsWire`: the bytes of every field name, word and record.
* `TsRecords`, `TsReaders`: records that cross from one language to the other.
* `Landmarks`, `Reals`, `MapKeys`, `Refusals`: values, patterns, places and errors written out.

UTF-8 validity, the widening of 32-bit floats and the text of timestamps are parameters (`Runtime`): every
theorem about bytes holds for all of them. Records ask that the validity predicate accepts ASCII, and records
with timestamps that parsing undoes formatting.

## What the proofs found

* A signed integer that is not negative comes back as an unsigned one (clients/go/codec.gen.go:125-130). Round
  trips therefore return the normal form, and `Codec.EncodingInjective` says this is the only identification.
* Go refuses a negative integer below -2^63; TypeScript accepts it (`Transport.OnlyTypeScriptReads`). This is
  the only difference in what the two decoders accept (`Simulation.DecodersAgree`).
* On a map with a repeated key Go reads the first value and TypeScript the last (`Lookups.RepeatedKeyDiffers`);
  `Lookups.LookupsAgreeExactly` says when the lookups agree. No encoder of a modelled record repeats a key.
* TypeScript sends integer-valued numbers as integers and keeps only 64 bits of the argument. Negative zero,
  and integers outside int64 and uint64, do not arrive as what was sent (`Transport.NumbersThatSurvive`,
  `TsRecords.LocationTransport`, `TsReaders.RuleThereAndBack`).
* TypeScript drops a byte-order mark at the start of a text (`TsReaders.LocationReceived`).
* A rule with an undeclared word can be encoded and is refused by Go's decoder
  (`Records.RecurrenceRuleRoundTrip`).

## Model

| member | source | states |
|---|---|---|
| Encoder.CborHead | clients/go/codec.gen.go:103-119 | Appends to the buffer the shortest head for the argument: the unrolled shifts and truncating byte casts of each branch are the big-endian field of 0, 1, 2, 4 or 8 bytes; nothing already written changes |
| Encoder.CborEnc | clients/go/codec.gen.go:121-166 | The recursive append-to-buffer encoder with its array and map loops adds exactly the encoding of the tree to what is in the buffer |
| Encoder.CborEncItems | clients/go/codec.gen.go:151-155 | The array loop appends the items' encodings in order |
| Encoder.CborEncEntries | clients/go/codec.gen.go:156-161 | The map loop appends key then value for each entry, in the entries' own order |
| Encoder.CborEncode | clients/go/codec.gen.go:97-101 | The bytes returned for a tree are its encoding |
| Landmarks.TwoByteHeads | clients/go/codec.gen.go:103-119 | 1000 and -1000 as in Appendix A of RFC 8949; its neighbours do the other widths |
| Landmarks.ArrayVector | clients/go/codec.gen.go:121-166 | An array of integers, byte by byte |
| Landmarks.MapVector | clients/go/codec.gen.go:121-166 | A map, byte by byte |
| Grammar.EncAllIsWire | clients/go/codec.gen.go:121-166 | Whatever the encoder writes is derived by the definite-length grammar of section 3 of RFC 8949, from the normalised trees (a non-negative signed integer counts as unsigned) |
| Grammar.WireAllNormal | clients/go/codec.gen.go:227-337 | Only normalised trees whose lengths fit 64 bits are derived by the grammar |
| Parser.ParseAllSound | clients/go/codec.gen.go:276-327 | What the decoder consumes for a list of items is derived by the grammar from the trees it returns, with valid text and within the depth budget |
| Parser.ParseSound | clients/go/codec.gen.go:227-337 | The same for one item at any depth |
| Parser.ParseComplete | clients/go/codec.gen.go:227-337 | Any derivation of a tree with valid text that fits the depth budget is accepted, followed by any bytes, and exactly the derivation is consumed |
| Parser.ParseAllComplete | clients/go/codec.gen.go:276-327 | The same for a list of items |
| Codec.DecodeIsGrammar | clients/go/codec.gen.go:168-337 | A payload decodes to a tree if and only if the grammar derives the payload from the tree, every text is valid UTF-8, and the height is at most 64 |
| Codec.Unambiguous | clients/go/codec.gen.go:227-337 | Two items at the head of the same bytes are the same tree and the same bytes, whatever follows them and however deep or invalid their texts |
| Codec.RoundTripInContext | clients/go/codec.gen.go:96-337 | Decoding prefix + encoding + suffix at the end of the prefix, at any depth that leaves room for the height, returns the normalised tree and stops at the start of the suffix |
| Codec.RoundTrip | clients/go/codec.gen.go:96-180 | An encoding is decodable if and only if its texts are valid and its height is at most 64, and then decodes to the normalised tree |
| Codec.EncodingInjective | clients/go/codec.gen.go:96-166 | Two trees have the same encoding if and only if they have the same normal form, at any height and for any text bytes |
| Codec.EncNorm | clients/go/codec.gen.go:125-130 | Normalising changes no byte of the encoding: a non-negative signed integer is written as an unsigned one, also in keys and under tags |
| Codec.Canonicalisation | clients/go/codec.gen.go:96-337 | What was decoded is normal, and re-encoding it decodes to the same tree |
| Codec.SuffixIrrelevant | clients/go/codec.gen.go:227-337 | A successful read is unchanged by any bytes after it |
| Codec.PrefixFree | clients/go/codec.gen.go:170-180 | No payload and proper extension of it are both accepted |
| Costs.ReservationBound | clients/go/codec.gen.go:276-327 | Array slots, map pairs and copied string bytes reserved in one decoding total at most 65 times the input, also when it fails, and less than the input when it succeeds |
| Costs.ReserveIsFootprint | clients/go/codec.gen.go:276-327 | A successful read reserves exactly the string lengths, item counts and entry counts of the tree it returns |
| Costs.DecodeReserves | clients/go/codec.gen.go:170-180 | The same for a whole payload |
| Costs.StringReserves | clients/go/codec.gen.go:276-295 | A string within its length check reserves its length, whatever follows |
| Costs.ArrayReserves | clients/go/codec.gen.go:296-309 | An array head that passes its length check reserves a slot for each item announced, whatever follows; to them come what the items read take up and exactly what the item that fails had reserved |
| Costs.MapReserves | clients/go/codec.gen.go:310-327 | The same for a map head and its pairs |
| Costs.ReserveBound | clients/go/codec.gen.go:227-337 | At any depth the reserved total is at most the remaining input times the nesting levels left |
| Costs.ReserveWhenOk | clients/go/codec.gen.go:227-337 | A successful item reserves less than the bytes it consumes |
| Costs.HeadShortest | clients/go/codec.gen.go:103-119 | The head written for an argument is never longer than a head it can be read from |
| Costs.CanonicalLength | clients/go/codec.gen.go:96-337 | Re-encoding an accepted payload gives at most its length plus 4 bytes for each 32-bit float in it |
| Costs.LengthWithoutFloats | clients/go/codec.gen.go:248-257 | The excess is at most 4 bytes for each float of the value, and the canonical form at most nine fifths of the payload |
| Decoder.ReadField | clients/go/codec.gen.go:202-222 | The shift loop over a big-endian field computes its value without losing a bit and reads only indices below the length |
| Decoder.CborReadArg | clients/go/codec.gen.go:182-225 | Reads the argument and advances the cursor past the head, or leaves the cursor where it is and reports the truncation |
| Decoder.CborDec | clients/go/codec.gen.go:227-337 | The cursor-driven decoder refines the parser at every position and depth: same value, same end, same error; the cursor never passes the end, and a ghost meter of what it allocates is the reserved total |
| Decoder.CborDecSimple | clients/go/codec.gen.go:237-263 | The arms of major type 7: booleans, null and undefined, 32- and 64-bit floats, an error for every other simple value |
| Decoder.CborDecBody | clients/go/codec.gen.go:268-336 | The arms entered behind a head, containers included |
| Decoder.CborDecString | clients/go/codec.gen.go:269-295 | The integer and string arms: the range of negative integers, length against the remaining input, UTF-8 validity |
| Decoder.CborDecItems | clients/go/codec.gen.go:296-309 | The array loop decodes as many items as announced or stops at the first error |
| Decoder.CborDecEntry | clients/go/codec.gen.go:317-325 | One map entry is a key item followed by a value item |
| Decoder.CborDecEntries | clients/go/codec.gen.go:310-327 | The map loop decodes as many pairs as announced, in order, or stops at the first error |
| Decoder.CborDecode | clients/go/codec.gen.go:170-180 | A whole payload: one item and nothing after it |
| Refusals.LeadRefusals | clients/go/codec.gen.go:231-263 | The errors for an empty input, an unsupported simple value and a reserved length |
| Refusals.ShortArgument | clients/go/codec.gen.go:182-225 | The error for an argument cut short |
| Refusals.BodyRefusals | clients/go/codec.gen.go:268-327 | The errors for a negative integer out of range, for lengths beyond the rest of the input, and for invalid text, each from its head |
| Refusals.InnerRefusal | clients/go/codec.gen.go:296-327 | A container is refused with the error of the first item that fails |
| Refusals.PayloadRefusals | clients/go/codec.gen.go:170-180 | A payload is refused for bytes left over if and only if a proper prefix of it is a payload |
| Float64.OfNatExact | clients/go/codec.gen.go:441-452 | An integer up to 2^53 converts to binary64 without loss |
| Float64.OfNatNearest | clients/go/codec.gen.go:441-452 | No integer-valued number is nearer to an integer below 2^1023 than the one it converts to |
| Float64.RoundNearest | clients/go/codec.gen.go:441-452 | The conversion rounds to a nearest multiple, and to the even one of two that are equally near |
| Float64.OfNatIsInteger | clients/typescript/codec.gen.ts:131-133 | A converted integer is an integer for Number.isInteger |
| Float64.IntegerRecovered | clients/typescript/codec.gen.ts:57-57 | Every non-negative integer-valued number is recovered from its exact value, as BigInt and Number convert it |
| Float64.NumberBack | clients/typescript/codec.gen.ts:57-57 | An integer-valued number of either sign is recovered from its exact value if and only if it is not negative zero |
| Reals.IntegerMeaning | clients/typescript/codec.gen.ts:57-57 | A finite binary64 pattern stands for an integer, by the definition of IEEE 754, if and only if it is an integer pattern and that is its integer |
| Float64.WrappedIntegerDiffers | clients/typescript/codec.gen.ts:37-40 | A non-negative integer-valued number of 2^64 or more is not recovered from its low 64 bits |
| TsCodec.TsHead | clients/typescript/codec.gen.ts:25-41 | The BigInt head pushes the bytes of the Go head for every argument below 2^64, and the low 64 bits of a larger one |
| TsCodec.PushShifts | clients/typescript/codec.gen.ts:35-39 | The downward shift loop pushes the big-endian field |
| TsCodec.EncInto | clients/typescript/codec.gen.ts:55-85 | The recursive encoder appends the encoding of the tree; integer-valued numbers go out as integers |
| TsCodec.EncItems | clients/typescript/codec.gen.ts:71-73 | The array loop |
| TsCodec.EncEntries | clients/typescript/codec.gen.ts:74-79 | The loop over a Map, in insertion order |
| TsCodec.EncodeValue | clients/typescript/codec.gen.ts:88-92 | The bytes returned are the encoding |
| TsCodec.ReadArg | clients/typescript/codec.gen.ts:96-129 | Reads the argument and advances the cursor, or throws without moving it |
| TsCodec.ReadBig | clients/typescript/codec.gen.ts:109-127 | The BigInt shift loops compute the value of the field |
| TsCodec.ReadFloat | clients/typescript/codec.gen.ts:135-145 | A 32-bit float is widened, a 64-bit one read as it is |
| TsCodec.DecInto | clients/typescript/codec.gen.ts:147-216 | The mutable-cursor decoder refines the TypeScript parser at every position and depth |
| TsCodec.DecSimple | clients/typescript/codec.gen.ts:153-168 | The arms of major type 7 |
| TsCodec.DecBody | clients/typescript/codec.gen.ts:169-215 | The arms entered behind a head |
| TsCodec.DecItems | clients/typescript/codec.gen.ts:191-197 | The array loop |
| TsCodec.DecEntries | clients/typescript/codec.gen.ts:198-208 | The loop that fills a Map: a repeated key replaces the earlier value in place |
| TsCodec.DecodeValue | clients/typescript/codec.gen.ts:219-224 | A whole payload: one item and nothing after it |
| Landmarks.NumberOrBigInt | clients/typescript/codec.gen.ts:131-133 | An integer of 64 bits on the wire is read as a number up to 2^53 - 1 in size and as a bigint beyond |
| Landmarks.SafeIntegers | clients/typescript/codec.gen.ts:131-133 | No two integers up to 2^53 share a number |
| Landmarks.FirstUnsafe | clients/typescript/codec.gen.ts:131-133 | 2^53 + 1 shares its number with 2^53 |
| MapKeys.KeysFallTogether | clients/typescript/codec.gen.ts:198-208 | Two keys of a decoded map are one key to a JavaScript Map if and only if they are equal texts once a byte-order mark is dropped, equal booleans, null, equal integers, floats equal or both zero or both no number, or a float and the integer up to 2^53 - 1 it stands for |
| MapKeys.SetAgain | clients/typescript/codec.gen.ts:198-208 | A key set again keeps its place and first form; only the value changes |
| MapKeys.BomDropped | clients/typescript/codec.gen.ts:182-190 | One leading byte-order mark is dropped from a text, and nothing else |
| Simulation.FrameSimulation | clients/typescript/codec.gen.ts:147-216 | On any bytes the two decoders read corresponding heads of the same length, except a negative integer below the least int64 |
| Simulation.ParseSimulation | clients/typescript/codec.gen.ts:147-216 | On any bytes and depth: Go accepts if and only if TypeScript accepts without meeting such an integer; then both stop at the same place with corresponding values |
| Simulation.ParseAllSimulation | clients/typescript/codec.gen.ts:191-208 | The same for a list of items |
| Simulation.DecodersAgree | clients/typescript/codec.gen.ts:219-224 | The same for whole payloads, trailing bytes included |
| TsGrammar.ReadSound | clients/typescript/codec.gen.ts:147-216 | What the TypeScript decoder reads at any depth is derived by the grammar, extended by the integers down to -2^64 |
| TsGrammar.ReadComplete | clients/typescript/codec.gen.ts:147-216 | Whatever that grammar derives is read, before any bytes, and exactly the derivation is consumed |
| TsGrammar.TsDecodeIsGrammar | clients/typescript/codec.gen.ts:219-224 | A payload decodes in TypeScript to a value if and only if the grammar derives the payload with that reading |
| TsGrammar.TsSuffixIrrelevant | clients/typescript/codec.gen.ts:147-216 | A successful read is unchanged by any bytes after it |
| TsGrammar.TsPrefixFree | clients/typescript/codec.gen.ts:219-224 | No payload TypeScript accepts is a proper prefix of another |
| Twins.LeadBytes | clients/typescript/codec.gen.ts:25-85 | Both encoders write the same bytes for one node |
| Twins.SameBytes | clients/typescript/codec.gen.ts:55-92 | Both encoders write the same bytes for corresponding trees whose integers are in the range of int64 or uint64 |
| Twins.GoReadsTypeScript | clients/go/codec.gen.go:170-180 | Go accepts what TypeScript wrote if and only if its texts are valid, its height is at most 64 and no integer reads as less than the least int64, and reads the corresponding tree, with integers and tags cut to 64 bits |
| Twins.GoParses | clients/go/codec.gen.go:227-337 | With valid texts and enough depth left, Go on the bytes of any TypeScript tree, before any suffix, returns the corresponding tree and stops at its end, or reports the range of negative integers |
| Twins.OnlyReading | clients/go/codec.gen.go:227-337 | The grammar derives the bytes TypeScript wrote from the corresponding tree only, and from none when some integer reads as less than the least int64 |
| Twins.TypeScriptReadsGo | clients/typescript/codec.gen.ts:219-224 | TypeScript reads what Go wrote as the corresponding tree |
| Twins.SetAllApart | clients/typescript/codec.gen.ts:198-208 | Setting keys that are pairwise different for a Map loses no entry and keeps the order |
| Echo.FullMap | clients/typescript/codec.gen.ts:198-208 | A Map that has as many entries as it was given keys has kept them all, in order, and no two of the keys are the same for it |
| Echo.KeptExactly | clients/typescript/codec.gen.ts:131-216 | A decoded Go tree comes back from TypeScript unchanged if and only if it holds no integer-valued float, no leading byte-order mark, no keys a Map takes for one and no tag number that rounds |
| Echo.ReencodesExactly | clients/typescript/codec.gen.ts:88-92 | TypeScript re-encodes Go's bytes to the same bytes if and only if the tree Go reads is such a tree |
| SelfEcho.ReadsItself | clients/typescript/codec.gen.ts:219-224 | TypeScript accepts its own bytes if and only if the texts are valid and the height is at most 64, whatever integers are in them, and then reads the echo of the tree |
| SelfEcho.EchoParses | clients/typescript/codec.gen.ts:147-216 | The same before any other bytes and at any depth; an accepted item ends where its bytes do |
| SelfEcho.EchoThroughGo | clients/typescript/codec.gen.ts:219-224 | For a tree Go accepts, the echo is TypeScript's reading of what Go reads |
| SelfEcho.SettledExactly | clients/typescript/codec.gen.ts:55-224 | TypeScript reads its own bytes back as the tree it wrote if and only if the texts are valid, the height is at most 64 and the tree is settled: no negative zero, no number that is an integer beyond 2^53 - 1, no bigint within it or outside -2^64 to 2^64 - 1, no leading byte-order mark, no rounding tag, no colliding keys |
| KeyOrder.KeyOrdersCoincide | clients/go/codec.gen.go:103-119 | For texts shorter than 2^64, bytewise order of the encodings (section 4.2.1 of RFC 8949) holds if and only if length-first order (section 4.2.3) does |
| KeyOrder.HeadOrder | clients/go/codec.gen.go:103-119 | Heads of one major type are ordered bytewise as their arguments, whatever follows |
| Fields.CborMapGet | clients/go/codec.gen.go:395-404 | The search loop returns the value of the first entry with the key, and nothing exactly when the value is no map or no entry has it |
| Names.AsciiCodes | clients/go/codec.gen.go:395-404 | A field name of ASCII characters is looked up and written as its character codes |
| Fields.IntegersExact | clients/go/codec.gen.go:413-439 | Every int64 and every uint64 comes back exactly through encode, decode and reader; outside the reader's range it is refused, never wrapped |
| Fields.EmittedKeysIncrease | clients/go/codec.gen.go:3992-4006 | With declared keys in order, the keys emitted are strictly increasing for every presence pattern |
| Fields.LookupFinds | clients/go/codec.gen.go:395-404 | First-match lookup among the emitted entries finds each declared field's own value, or nothing when it is absent |
| Fields.MapGetNorm | clients/go/codec.gen.go:395-404 | Looking a key up in the decoded map is looking it up in the encoded one, up to the normal form of the value |
| Fields.DeclaredLookup | clients/go/codec.gen.go:395-411 | Permuting a map whose declared keys are distinct, or adding entries under other or non-text keys, changes no declared lookup |
| Fields.RecordDelivered | clients/go/codec.gen.go:339-411 | A record of sendable fields decodes to a map in which every declared key holds its field's value |
| Fields.LeavesDelivered | clients/go/codec.gen.go:339-411 | The same for a record of scalars |
| Collections.CborEncArray | clients/go/codec.gen.go:340-346 | The loop writes the elements in order |
| Collections.CborDecArray | clients/go/codec.gen.go:359-373 | The loop reads every element in order, or returns the first error |
| Collections.DecArrayExact | clients/go/codec.gen.go:359-373 | A value is read as a list if and only if it is an array of as many items, each read as the list's own |
| Collections.ListRoundTrip | clients/go/codec.gen.go:340-373 | Reading back a written list of any length gives the list, for any element reader that inverts its writer |
| Collections.ListVerdict | clients/go/codec.gen.go:340-373 | A list is read back if each element is, and refused with their common error if some are refused |
| Collections.CborEncMap | clients/go/codec.gen.go:348-357 | The loop writes each key of the map once, in an order that is not determined |
| Collections.CborDecMap | clients/go/codec.gen.go:375-393 | The loop reads the entries into the map that has, under each key read, the value of its last entry, or returns the first error |
| Collections.DecMapExact | clients/go/codec.gen.go:375-393 | A value is read as a map if and only if it is one, every entry reads, its keys are those read, and each has the value of the last entry read under it |
| Collections.MapOrderIrrelevant | clients/go/codec.gen.go:348-393 | For every finite map and every order of visiting it, reading back what was written gives the map |
| Records.CsilEncPage | clients/go/codec.gen.go:675-684 | Lays down the present fields in the declared key order, and nothing for an absent one |
| RecordReaders.CsilDecPage | clients/go/codec.gen.go:687-704 | Returns a record if and only if the map holds that record's fields, in any order and among any others; reports an error if and only if some field is at fault with it, by the schema written out beside it, and every field before it in schema order is not |
| Wire.PageWire | clients/go/codec.gen.go:675-684 | The bytes of the encoded record for all field values and every presence pattern: the map head with its count, then each key and value with the key bytes written out |
| Records.PageKeysIncrease | clients/go/codec.gen.go:675-684 | For every presence pattern the keys written are strictly increasing in canonical order, hence distinct |
| Records.PageRead | clients/go/codec.gen.go:687-704 | From any map that holds the fields under their keys, in any order and among others, the decoder reads the record |
| Records.PageRoundTrip | clients/go/codec.gen.go:675-712 | Every page and every presence pattern decodes to itself |
| Records.PageIgnoresUndeclared | clients/go/codec.gen.go:687-704 | Permuting the entries or adding undeclared or non-text keys changes neither the record nor whether it is accepted |
| Records.CsilEncServiceError | clients/go/codec.gen.go:860-871 | Lays down the present fields in the declared key order, and nothing for an absent one |
| RecordReaders.CsilDecServiceError | clients/go/codec.gen.go:874-913 | Returns a record if and only if the map holds that record's fields, in any order and among any others; reports an error if and only if some field is at fault with it, by the schema written out beside it, and every field before it in schema order is not |
| Wire.ServiceErrorWire | clients/go/codec.gen.go:860-871 | The bytes of the encoded record for all field values and every presence pattern: the map head with its count, then each key and value with the key bytes written out |
| Records.ServiceErrorKeysIncrease | clients/go/codec.gen.go:860-871 | For every presence pattern the keys written are strictly increasing in canonical order, hence distinct |
| Records.ServiceErrorRead | clients/go/codec.gen.go:874-913 | From any map that holds the fields under their keys, in any order and among others, the decoder reads the record |
| Records.ServiceErrorRoundTrip | clients/go/codec.gen.go:860-921 | Every error with valid texts and every presence pattern decodes to itself |
| Records.ServiceErrorCanonical | clients/go/codec.gen.go:860-921 | Any payload accepted as this record, whatever its key order and extra keys, holds a record that can be sent and decodes to itself |
| Records.ServiceErrorIgnoresUndeclared | clients/go/codec.gen.go:874-913 | Permuting the entries or adding undeclared or non-text keys changes neither the record nor whether it is accepted |
| Records.CsilEncSignedDelivery | clients/go/codec.gen.go:8560-8568 | Lays down the present fields in the declared key order, and nothing for an absent one |
| RecordReaders.CsilDecSignedDelivery | clients/go/codec.gen.go:8571-8629 | Returns a record if and only if the map holds that record's fields, in any order and among any others; reports an error if and only if some field is at fault with it, by the schema written out beside it, and every field before it in schema order is not |
| Wire.SignedDeliveryWire | clients/go/codec.gen.go:8560-8568 | The bytes of the encoded record for all field values and every presence pattern: the map head with its count, then each key and value with the key bytes written out |
| Records.SignedDeliveryKeysIncrease | clients/go/codec.gen.go:8560-8568 | For every presence pattern the keys written are strictly increasing in canonical order, hence distinct |
| Records.SignedDeliveryRead | clients/go/codec.gen.go:8571-8629 | From any map that holds the fields under their keys, in any order and among others, the decoder reads the record |
| Records.SignedDeliveryRoundTrip | clients/go/codec.gen.go:8560-8637 | Every delivery with valid texts and every presence pattern decodes to itself |
| Records.SignedDeliveryCanonical | clients/go/codec.gen.go:8560-8637 | Any payload accepted as this record, whatever its key order and extra keys, holds a record that can be sent and decodes to itself |
| Records.SignedDeliveryIgnoresUndeclared | clients/go/codec.gen.go:8571-8629 | Permuting the entries or adding undeclared or non-text keys changes neither the record nor whether it is accepted |
| Records.CsilEncRecurrenceRule | clients/go/codec.gen.go:3992-4006 | Lays down the present fields in the declared key order, and nothing for an absent one |
| RecordReaders.CsilDecRecurrenceRule | clients/go/codec.gen.go:4009-4083 | Returns a record if and only if the map holds that record's fields, in any order and among any others, and its words are declared; reports an error if and only if some field is at fault with it, by the schema written out beside it, and every field before it in schema order is not |
| Wire.RecurrenceRuleWire | clients/go/codec.gen.go:3992-4006 | The bytes of the encoded record for all field values and every presence pattern: the map head with its count, then each key and value with the key bytes written out |
| Records.RecurrenceRuleKeysIncrease | clients/go/codec.gen.go:3992-4006 | For every presence pattern the keys written are strictly increasing in canonical order, hence distinct |
| Records.RecurrenceRuleRead | clients/go/codec.gen.go:4009-4083 | From any map that holds the fields under their keys, in any order and among others, the decoder reads the record |
| Records.RecurrenceRuleRoundTrip | clients/go/codec.gen.go:3992-4091 | Every rule with valid texts decodes to itself if its words are declared, and is refused with the vocabulary error otherwise |
| Records.RecurrenceRuleCanonical | clients/go/codec.gen.go:3992-4091 | Any payload accepted as this record, whatever its key order and extra keys, holds a record that can be sent and decodes to itself |
| Records.RecurrenceRuleIgnoresUndeclared | clients/go/codec.gen.go:4009-4083 | Permuting the entries or adding undeclared or non-text keys changes neither the record nor whether it is accepted |
| Records.CsilEncLocation | clients/go/codec.gen.go:4101-4116 | Lays down the present fields in the declared key order, and nothing for an absent one |
| RecordReaders.CsilDecLocation | clients/go/codec.gen.go:4119-4202 | Returns a record if and only if the map holds that record's fields, in any order and among any others, coordinates as floats or as integers that convert to them; reports an error if and only if some field is at fault with it, by the schema written out beside it, and every field before it in schema order is not |
| Wire.LocationWire | clients/go/codec.gen.go:4101-4116 | The bytes of the encoded record for all field values and every presence pattern: the map head with its count, then each key and value with the key bytes written out |
| Records.LocationKeysIncrease | clients/go/codec.gen.go:4101-4116 | For every presence pattern the keys written are strictly increasing in canonical order, hence distinct |
| Records.LocationRead | clients/go/codec.gen.go:4119-4202 | From any map that holds the fields under their keys, in any order and among others, the decoder reads the record |
| Records.LocationRoundTrip | clients/go/codec.gen.go:4101-4210 | Every location with valid texts and every presence pattern decodes to itself |
| Records.LocationCanonical | clients/go/codec.gen.go:4101-4210 | Any payload accepted as this record, whatever its key order and extra keys, holds a record that can be sent and decodes to itself |
| Records.LocationIgnoresUndeclared | clients/go/codec.gen.go:4119-4202 | Permuting the entries or adding undeclared or non-text keys changes neither the record nor whether it is accepted |
| Gatherings.TimeTravels | clients/go/codec.gen.go:489-510 | A timestamp is tag 0 over a text, and comes back when parsing inverts formatting |
| Gatherings.ViewerContextTravels | clients/go/codec.gen.go:540-657 | A viewer context is sendable and reads back as itself |
| Gatherings.PublishDecisionTravels | clients/go/codec.gen.go:722-781 | A publish decision is sendable and reads back as itself, or is refused if its source is not declared |
| Gatherings.OriginTravels | clients/go/codec.gen.go:799-842 | An origin is sendable and reads back as itself |
| Gatherings.OwnerRefTravels | clients/go/codec.gen.go:2312-2395 | An owner is sendable and reads back as itself, or is refused if its kind is not declared |
| Gatherings.OwnersTravel | clients/go/codec.gen.go:2478-2694 | A list of owners of any length is sendable and reads back as itself, or is refused if some kind is not declared |
| Gatherings.CsilEncGathering | clients/go/codec.gen.go:2478-2499 | Lays down the gathering's present fields in key order, owners and nested records included |
| Gatherings.CsilEncGatheringRest | clients/go/codec.gen.go:2487-2499 | The second half of that sequence |
| GatheringReaders.CsilDecGathering | clients/go/codec.gen.go:2502-2694 | Returns a gathering if and only if the map holds its sixteen fields, owners and nested records field by field and timestamps by the instant their text parses to; reports an error if and only if some field is at fault with it, nested ones included, and every field before it in schema order is not |
| GatheringReaders.CsilDecGatheringList | clients/go/codec.gen.go:3123-3148 | Returns a list if and only if the map holds the total and an array whose items hold the gatherings one by one; reports an error if and only if the first field or item at fault has it |
| Schema.ListsJudge | clients/go/codec.gen.go:359-373 | A list is refused with the error of its first item at fault |
| Schema.Refusal | clients/go/codec.gen.go:406-411 | A record is at fault with the first refusal among the reads of its fields in schema order |
| Schema.ScalarsJudge | clients/go/codec.gen.go:413-473 | Each scalar reader refuses exactly the values that are not of its form, with the error of that form |
| Schema.RequiredFault | clients/go/codec.gen.go:406-411 | A required field is refused as missing exactly when no entry has its name, and otherwise with the fault of the first that has |
| GatheringReaders.OwnersExact | clients/go/codec.gen.go:2502-2694 | A value is read as a list of owners if and only if its items hold them one by one |
| Gatherings.GatheringKeysIncrease | clients/go/codec.gen.go:2478-2499 | The gathering's keys are strictly increasing for every presence pattern |
| Gatherings.GatheringTravels | clients/go/codec.gen.go:2478-2694 | A gathering is sendable at height 3 and reads back as itself if every word in it is declared, and is refused with the vocabulary error otherwise |
| Gatherings.CsilEncGatheringList | clients/go/codec.gen.go:3115-3120 | Lays down the list and the total |
| Wire.GatheringWire | clients/go/codec.gen.go:2478-2499 | The bytes of a gathering for all field values, keys written out |
| Wire.GatheringListWire | clients/go/codec.gen.go:3115-3120 | The bytes of a gathering list: the total, then the head of the list and each gathering |
| Wire.ViewerContextWire | clients/go/codec.gen.go:540-552 | The bytes of a viewer context |
| Wire.PublishDecisionWire | clients/go/codec.gen.go:722-728 | The bytes of a publish decision |
| Wire.OriginWire | clients/go/codec.gen.go:799-807 | The bytes of an origin |
| Wire.OwnerRefWire | clients/go/codec.gen.go:2312-2320 | The bytes of an owner |
| Gatherings.GatheringListRoundTrip | clients/go/codec.gen.go:3115-3156 | A gathering list of any length, with owner lists of any length, decodes to itself if every word anywhere in it is declared, and is refused with the vocabulary error otherwise |
| GatheringLaws.GatheringListCanonical | clients/go/codec.gen.go:3115-3160 | Any payload accepted as a gathering list, whatever its key order and extra keys at every level, holds a list that, if its instants can be written and read, has valid texts and decodes to itself when sent again |
| GatheringLaws.GatheringIgnoresUndeclared | clients/go/codec.gen.go:2502-2694 | Permuting a gathering's entries or adding undeclared ones changes neither what is read nor whether it is accepted |
| GatheringLaws.GatheringListIgnoresUndeclared | clients/go/codec.gen.go:3123-3148 | The same for the list, and for the gatherings inside it at the same time |
| Gatherings.GatheringListHeight | clients/go/codec.gen.go:227-230 | An encoded gathering list is at most 5 high whatever the lengths, so the nesting limit never refuses one |
| Transport.IntegerOnWire | clients/go/codec.gen.go:268-275 | Go's reading of any integer TypeScript writes: its argument's low 64 bits, or a refusal when that is negative beyond int64 |
| Transport.OnlyTypeScriptReads | clients/typescript/codec.gen.ts:169-177 | Every integer whose low 64 bits read as less than the least int64 is accepted by TypeScript as a bigint and refused by Go; from -2^64 on it is the integer that was sent |
| Transport.IntegersThatSurvive | clients/typescript/codec.gen.ts:43-46 | An integer survives the trip to Go if and only if it is in the range of int64 or of uint64 |
| Transport.NumbersThatSurvive | clients/go/codec.gen.go:441-452 | A JavaScript number is read by cborAsF64 as the same number if and only if it is not negative zero and, when integer-valued, in that range |
| TsRecords.PresentLaid | clients/typescript/codec.gen.ts:1549-1557 | Setting increasing keys one after the other leaves the present fields in that order |
| TsRecords.DictFacts | clients/typescript/codec.gen.ts:1549-1557 | The Map so filled corresponds to the entries Go lays down for the fields Go sees |
| TsRecords.WrittenByTypeScript | clients/typescript/codec.gen.ts:1549-1571 | Go accepts a record of strings and numbers TypeScript wrote if and only if each number is readable, and then finds each field under its key; otherwise it reports the range of negative integers |
| TsRecords.ToRecurrenceRuleCborValue | clients/typescript/codec.gen.ts:1549-1557 | Sets the present fields in key order |
| TsRecords.RuleTransport | clients/go/codec.gen.go:4009-4091 | Any rule TypeScript can write is taken by Go if and only if its words are declared and its numbers are integers of the right sign once cut to 64 bits, as the rule with those integers; otherwise the error is that of the first field at fault |
| TsRecords.RuleArrives | clients/go/codec.gen.go:4009-4091 | A rule arrives with the same words and the same integers if and only if its words are declared, its counts are in uint64 and its ordinal is in int64 |
| TsRecords.ToLocationCborValue | clients/typescript/codec.gen.ts:1577-1588 | Sets the present fields in key order |
| TsWire.TsRuleWire | clients/typescript/codec.gen.ts:1549-1571 | The bytes of a rule TypeScript writes, whatever numbers it holds, keys written out |
| TsWire.TsLocationWire | clients/typescript/codec.gen.ts:1577-1605 | The bytes of a location TypeScript writes |
| TsRecords.LocationTransport | clients/go/codec.gen.go:4119-4210 | Any location TypeScript can write is accepted by Go if and only if no coordinate reads as less than the least int64, as the location with the coordinates cborAsF64 makes of the two, and is the same location if and only if each coordinate is not negative zero and, when integer-valued, in the range of int64 or uint64 |
| Lookups.TypeScriptFindsLast | clients/typescript/codec.gen.ts:227-229 | Get on the decoded Map finds the last entry whose key reads as the wanted one |
| Lookups.LookupsAgreeExactly | clients/typescript/codec.gen.ts:227-229 | Given the keys of a map, both sides find the same value for every choice of values if and only if the first entry with the key is the last that reads as it |
| Lookups.RepeatedKeyDiffers | clients/typescript/codec.gen.ts:198-208 | A map that repeats a key over two values TypeScript tells apart, of any height below 64, is read differently: Go takes the first value and TypeScript the last |
| Lookups.WrittenByGo | clients/typescript/codec.gen.ts:227-236 | TypeScript accepts every record of scalars Go writes and finds each field under its own key |
| TsReaders.LeavesRead | clients/typescript/codec.gen.ts:238-247 | What each scalar Go writes is to a TypeScript reader: integers to the nearest number, floats exactly, texts without a leading byte-order mark |
| TsReaders.RuleReceived | clients/typescript/codec.gen.ts:1559-1575 | A rule written by Go is read by TypeScript with every count to the nearest number, and refused if and only if a word is not declared once a byte-order mark is dropped |
| TsReaders.LocationReceived | clients/typescript/codec.gen.ts:1590-1609 | A location written by Go is read with both coordinates exact, and is the same location if and only if no text starts with a byte-order mark |
| TsReaders.RuleThereAndBack | clients/typescript/codec.gen.ts:1549-1575 | Any rule sent from TypeScript to Go and back: what Go takes is accepted on the way back, and the same rule returns if and only if its words are declared, its numbers are of their types and none is negative zero |
| Words.RuleWords | clients/go/codec.gen.go:4009-4083 | Go takes a rule with valid texts if and only if its frequency is one of the four words and its weekday, if any, one of the seven, each written out as bytes |
| Words.RuleWordsReceived | clients/typescript/codec.gen.ts:1559-1567 | TypeScript takes it if and only if they are once a byte-order mark is dropped |
| Words.GatheringListWords | clients/go/codec.gen.go:2502-2694 | Go takes a gathering list with valid texts if and only if every publish setting, publish source and owner kind in it is one of the words written out |
| TsSchema.RecurrenceRuleRefused | clients/typescript/codec.gen.ts:1559-1567 | TypeScript refuses a Map as a rule exactly with the error of the first field at fault, in the order the object is built |
| TsSchema.LocationRefused | clients/typescript/codec.gen.ts:1590-1601 | The same for a location |

## Left out

- Gatherings.TimeTravels: the text of a timestamp is opaque, because formatting and parsing are library code; a timestamp survives when parsing inverts formatting on it.
- Decoder.CborDec: where the cursor stands after an error is not stated; no caller looks at it.
- TsCodec.DecInto: where the cursor stands after a throw is not stated; no caller looks at it.
- Encoder.CborEnc: lengths and counts are below 2^64, as any Go length is.
- UTF-8 tables, the widening of 32-bit floats and TextEncoder: parameters, shared by both languages.
- The payload of a NaN, which a JavaScript engine may change.
- `cborEqual`: not used by the modelled functions.
- Error wording: errors are the members of an enumeration, and a failed record decode returns no partly filled record.
- The small records inside a gathering (viewer context, publish decision, origin, owner): coded as functions; the statement-by-statement form is given for the five flat records, the gathering and the gathering list.
- Twins.GoReadsTypeScript: lengths and counts are below 2^64, as any JavaScript length is.
- Goroutines sharing a buffer: the codec's functions own their buffer and cursor.
- The other record types: generated from the same template.
- Client stubs, service interfaces, input validation, the database and API packages, the web application: outside the codec.
