# psfparser in Dafny

A model of the core of psfparser, a Rust reader for PSF (Parameter Storage
Format) simulator result files, with proofs about it. The model covers
these parts:

- **The binary decoder** (`src/binary/mod.rs`). It reads the table of
  contents from the file's trailing directory. It decodes the header,
  type, sweep and trace sections. It decodes the windowed value section
  into one sample vector per signal. `PsfParser::parse` runs these steps
  in order.
- **The older decoder** (`src/binparse/mod.rs`). It reads words as signed
  `i32` and then casts them with `as usize`. It is modelled on top of the
  binary decoder and proved to agree with it on files shorter than 2^31
  bytes.
- **The analysis view builders** of the text front end
  (`src/parser/transient.rs`, `src/parser/analysis/transient.rs`,
  `src/parser/ac.rs`, `src/parser/analysis/dc.rs`). They flatten a trace
  list of groups and signals into a name-to-name alias map. They route
  value entries into name-keyed sample vectors. The DC builder picks an
  operating-point view or a sweep view. `bin_search_before` finds the
  latest sample at or before a target.

The model works on immutable values throughout. Bytes are `seq<u8>`, and
every decoder is a function returning a `Result`. The Rust code aborts on
malformed input: a `panic!`, an `assert_eq!`, an `unwrap`, an
out-of-range index or slice, or an integer overflow. Each of these
becomes a `Fail` naming the kind of problem (module `Results`). Debug
assertions (`debug_assert!`, `debug_assert_eq!`) and overflow checks are
taken as they behave in a debug build, so they fail too.

Modules follow the program's structure:

- `Bytes`: big-endian words and doubles, padded strings.
- `Utf8`: the well-formedness check of `std::str::from_utf8`.
- `Keyed`: insertion into a `HashMap`, where later keys win.
- `Toc`: the directory scan.
- `Records`: named values, properties, signal references, groups and type
  definitions, each with an encoder that serves as its inverse.
- `Sections`: the four section decoders.
- `Windows`: the value section.
- `Binary`: the driver.
- `Legacy`: `src/binparse/mod.rs`.
- `Aliases`: group flattening.
- `Gather`: the routing loop shared by the views.
- `Views`: the four builders and their accessors.
- `Search`: `bin_search_before`.

Some behaviours of the code are easy to misread. The model follows the
code as written:

- **Sweep-point total.** The loop at `src/binary/mod.rs:111-177` stops once
  the running count reaches the header's `"PSF sweep points"`. The last
  window can take the count past that value by less than one window
  (2^16 samples). `Windows.ReadWindows` states exactly that bound.
- **Binary integer values.** The binary decoder's `parse_int` returns a
  `u32`, so `i as i64` at `src/binary/mod.rs:413` zero-extends. Only the
  older decoder sign-extends, because it reads an `i32`.
- **Type and trace section end.** The end offset read at
  `src/binary/mod.rs:253` and `:292` only bounds the slice of records. It is
  not compared with the table of contents.
- **Operating point with several samples.** `src/parser/analysis/dc.rs:77-79`
  keeps each signal's first sample and ignores the rest without checking.
- **The `"time"` key.** The views insert `"time" -> "time"` into the alias
  map (`src/parser/analysis/transient.rs:38`), so a value entry named
  `"time"` is filed under `"time"`.
- **Standalone signals in the value loop.** The loop calls `trace.group()`
  on every trace (`src/binary/mod.rs:98`, `:134`), so a standalone signal
  there fails.

## Model

| member | source | states |
|---|---|---|
| Bytes.AsUsize | src/binparse/mod.rs:19 | `i32 as usize` on a 64-bit target: non-negative values are unchanged, and negative ones wrap to at least 2^63 while staying congruent modulo 2^64 |
| Bytes.DecodeEncode | src/binary/mod.rs:445-448 | reading back the big-endian bytes of a value below 256^n gives the value |
| Bytes.EncodeDecode | src/binary/mod.rs:445-448 | every byte string is the big-endian encoding of the number it reads as |
| Bytes.ReadU32 | src/binary/mod.rs:450-454 | succeeds exactly when four bytes remain; gives their big-endian value and the rest |
| Bytes.PeekU32 | src/binary/mod.rs:445-448 | succeeds exactly when four bytes remain; gives the same word `read_u32` would consume |
| Bytes.ReadU32Of | src/binary/mod.rs:450-454 | reading a word written as four big-endian bytes gives the word and the untouched rest |
| Bytes.ReadF64 | src/binary/mod.rs:456-460 | succeeds exactly when eight bytes remain; gives the 64-bit pattern of the first eight and the rest |
| Bytes.ReadF64Of | src/binary/mod.rs:456-460 | reading a double written as eight big-endian bytes gives it back with the untouched rest |
| Bytes.ReadDoubles | src/binary/mod.rs:151-154 | `n` reads succeed exactly when `8n` bytes remain; element `i` is the double at byte `8i`, and the rest starts at `8n` |
| Bytes.ReadPairs | src/binary/mod.rs:164-168 | `n` (real, imaginary) reads succeed exactly when `16n` bytes remain; pair `i` is the doubles at `16i` and `16i + 8` |
| Bytes.ReadDoublesFrom | src/binary/mod.rs:138-154 | reading from a slab start inside a buffer succeeds exactly when the slab fits, and gives the doubles at that offset |
| Bytes.ReadPairsFrom | src/binary/mod.rs:156-168 | the same for complex slabs |
| Bytes.PadCases | src/binary/mod.rs:428-432 | no padding after a length that is a multiple of four, otherwise `4 - len % 4` bytes |
| Bytes.ParseString | src/binary/mod.rs:425-433 | succeeds exactly when the length word, the bytes and their padding fit and the bytes are well-formed UTF-8; gives those bytes and the rest after the padding |
| Bytes.StringConsumption | src/binary/mod.rs:425-433 | a string always consumes a multiple of four bytes, between `4 + len` and `7 + len` |
| Bytes.StringRoundTrip | src/binary/mod.rs:425-433 | decoding an encoded well-formed string gives the string and the untouched rest |
| Bytes.PaddingBoundaries | src/binary/mod.rs:428-432 | lengths 0,1,2,3,4,5,8 pad by 0,3,2,1,0,3,0, and every padded length is a multiple of four |
| Utf8.AsciiValid | src/binary/mod.rs:427 | ASCII bytes are accepted by the UTF-8 check |
| Keyed.InsertAll | src/binary/mod.rs:374-378 | inserting pairs in order leaves exactly the old keys plus the pairs' keys |
| Keyed.InsertAllLastWins | src/binary/mod.rs:374-378 | a key ends up with the value of its last pair, or keeps its old value when no pair names it |
| Keyed.LastWins | src/binary/mod.rs:372-378 | the map built from pairs holds exactly their keys, each with its last value |
| Keyed.InsertAllAppend | src/parser/analysis/transient.rs:22-33 | inserting two runs of pairs one after the other is inserting their concatenation |
| Toc.SectionKindFromInt | src/binary/mod.rs:472-482 | codes 0 to 4 name the five sections, and any other code fails as an unknown section kind |
| Toc.Fill | src/binary/mod.rs:205-222 | the directory loop succeeds exactly when every kind code is known |
| Toc.Place | src/binary/mod.rs:210-219 | recording an entry adds exactly its kind to the table |
| Toc.FillContiguous | src/binary/mod.rs:205-222 | with known, distinct kinds, each section runs from its start to the next entry's start, and the last one to the end of the file |
| Toc.ContiguousRanges | src/binary/mod.rs:197-225 | the same, stated for the whole directory |
| Toc.ReadEntry | src/binary/mod.rs:206-208 | a directory entry is the two big-endian words at its offset |
| Toc.DirectoryOf | src/binary/mod.rs:198-208 | the directory is found exactly when the trailing size word `ds` is present and `ds + 12` is within the file; it has `(len - ds - 12) / 8` entries, starts within 8 bytes after `ds`, and entry `i` is the words at `8i` from its start |
| Toc.ParseToc | src/binary/mod.rs:197-225 | the table is built exactly when the directory is found and all its kind codes are known |
| Toc.ParseTocContiguous | src/binary/mod.rs:197-225 | for a file whose directory lists distinct known kinds, every listed section spans from its start to the next start, or to the end of the file |
| Records.DataTypeFromCode | src/binary/mod.rs:274-282 | only the six data-type codes decode, and each decodes to the type with that code |
| Records.DataTypeCodeRoundTrip | src/binary/mod.rs:282 | every data type's code decodes back to it |
| Records.ParseNamedValue | src/binary/mod.rs:402-423 | the tag picks the variant (33 string, 34 integer, 35 real); integers are the unsigned word; any other tag fails; input is consumed |
| Records.ParseProperties | src/binary/mod.rs:383-400 | consumes named values while a property tag follows, stopping where none does, and takes nothing when none starts the input |
| Records.ParseSignalRef | src/binary/mod.rs:351-366 | a signal reference consumes input and stops where no property follows |
| Records.GroupMembers | src/binary/mod.rs:329-337 | a group yields exactly `count` members, and a member not tagged 16 fails |
| Records.ParseGroup | src/binary/mod.rs:324-348 | a decoded group holds as many signals as its count |
| Records.ParseTraceItem | src/binary/mod.rs:306-321 | tag 16 gives a signal and tag 17 a group with `count` members; any other tag fails |
| Records.ParseTypeItem | src/binary/mod.rs:267-286 | a type definition must start with tag 16, and any other tag fails |
| Records.NamedValueRoundTrip | src/binary/mod.rs:402-423 | decoding an encoded named value gives it back with the untouched rest |
| Records.AtPropertyOfEmitted | src/binary/mod.rs:388-392 | an encoded named value is recognised as a property |
| Records.NotAtProperty | src/binary/mod.rs:388-392 | a word outside 33 to 35 ends a property list |
| Records.PropertiesRoundTrip | src/binary/mod.rs:383-400 | decoding an encoded property list gives it back, stopping where the next record starts |
| Records.SignalRefRoundTrip | src/binary/mod.rs:351-366 | decoding an encoded signal reference gives it back |
| Records.MembersRoundTrip | src/binary/mod.rs:329-337 | decoding `n` encoded group members gives them back |
| Records.TraceRoundTrip | src/binary/mod.rs:306-321 | decoding an encoded trace, signal or group, gives it back |
| Records.TypeDefRoundTrip | src/binary/mod.rs:267-286 | decoding an encoded type definition gives it back |
| Sections.Suffix | src/binary/mod.rs:289 | `&file[a..]` succeeds exactly when `a` is within the file |
| Sections.Slice | src/binary/mod.rs:371 | `&file[a..b]` succeeds exactly when `a <= b <= len` |
| Sections.PlainBody | src/binary/mod.rs:369-371 | the header and sweep body runs from `start + 8` to the end offset stored at `start + 4`, and fails unless that range lies in the file |
| Sections.TaggedBody | src/binary/mod.rs:250-254 | the type and trace prolog must carry tag 22, and the body runs from `start + 16` to the stored end offset |
| Sections.NamedValueList | src/binary/mod.rs:374-378 | the header loop stops once at most four bytes remain and yields no NaN values |
| Sections.TypeList | src/binary/mod.rs:258-262 | the type loop stops once at most four bytes remain |
| Sections.SweepList | src/binary/mod.rs:238-244 | the sweep loop stops once at most four bytes remain, and an entry not tagged 16 fails |
| Sections.TraceList | src/binary/mod.rs:297-301 | every decoded group holds as many signals as its count |
| Sections.ParseHeader | src/binary/mod.rs:368-381 | the header map exists exactly when its records decode |
| Sections.HeaderLastWins | src/binary/mod.rs:372-378 | the header holds exactly the decoded names, each with the value of its last record |
| Sections.ParseTypes | src/binary/mod.rs:249-265 | the type map holds exactly the decoded ids, each mapped to a definition carrying that id |
| Sections.TypesLastWins | src/binary/mod.rs:258-262 | each id holds the last definition decoded with that id, as repeated `insert`s leave it |
| Sections.ParseSweeps | src/binary/mod.rs:232-247 | the sweep list is read from the plain body: it fails unless that body range is in the file, is empty when at most four bytes remain, and fails when the first record is not tagged 16 |
| Sections.ParseTraces | src/binary/mod.rs:288-304 | every decoded group holds as many signals as its count |
| Sections.NamedValueListRoundTrip | src/binary/mod.rs:374-378 | an encoded list of named values followed by at most four bytes decodes back to the list |
| Sections.TypeListRoundTrip | src/binary/mod.rs:258-262 | an encoded list of type definitions decodes back to the list |
| Sections.SweepListRoundTrip | src/binary/mod.rs:238-244 | an encoded list of sweep references decodes back to the list |
| Sections.TraceListRoundTrip | src/binary/mod.rs:297-301 | an encoded list of traces decodes back to the list |
| Windows.HeaderInt | src/binary/mod.rs:70-83 | a control value is read exactly when the key is present and holds an integer |
| Windows.LeafSignals | src/binary/mod.rs:98-103 | flattening succeeds exactly when every trace is a group, and yields the groups' members in group order, each group's in its own order, so leaf `k` is the `k`-th signal visited |
| Windows.AssignOffsets | src/binary/mod.rs:97-103 | leaf `k` gets the offset after `k` slabs of `window_size`, and the last `u32` offset must not overflow |
| Windows.LeafOffsets | src/binary/mod.rs:97-103 | with distinct ids, the offset map sends leaf `k` to `k * window_size` |
| Windows.SkipZeroPad | src/binary/mod.rs:227-230 | skips the length word, four more bytes and `len` bytes, failing when they are not there |
| Windows.FillReal | src/binary/mod.rs:143-155 | appends the window's doubles read from the slab start, and fails on a complex vector or a short buffer |
| Windows.FillComplex | src/binary/mod.rs:156-169 | appends the window's pairs read from the slab start, and fails on a real vector or a short buffer |
| Windows.FillSignal | src/binary/mod.rs:133-171 | a signal needs an offset, a known type and a name other than the sweep's; its samples are read right-aligned in its slab; only real and complex types decode |
| Windows.FillSignalGrows | src/binary/mod.rs:143-169 | filling one signal changes only its vector, which grows by the window count |
| Windows.FillSignals | src/binary/mod.rs:133-173 | filling all leaves keeps every existing vector and checks no leaf is named like the sweep |
| Windows.FillSignalsKeeps | src/binary/mod.rs:133-173 | a signal that is not a leaf keeps its vector unchanged, or stays absent |
| Windows.FillSignalsContents | src/binary/mod.rs:133-173 | with distinct ids, each leaf's vector after the window is what reading that leaf's slab alone makes of it |
| Windows.FillSignalsGrow | src/binary/mod.rs:133-173 | with distinct ids, every leaf grows by exactly the window count |
| Windows.ReadWindow | src/binary/mod.rs:112-176 | a window reads `block_init & 0xffff` samples and advances past the sweep samples and `num_traces * window_size` bytes; when the sweep is not a leaf, its vector gains exactly the `wc` doubles after the count word |
| Windows.WindowContents | src/binary/mod.rs:133-171 | with separate ids, each leaf gains the `wc` doubles (real) or pairs (complex) stored right-aligned in its slab, at its offset plus `window_size - 8 * wc`; no other data type is accepted |
| Windows.WindowGrows | src/binary/mod.rs:112-176 | with separate ids, one window adds exactly its count to the sweep vector and to every leaf |
| Windows.ReadWindows | src/binary/mod.rs:109-177 | the loop ends with the count at least `sweep_points` and under `sweep_points + 2^16`, with every leaf and the sweep grown by the samples read |
| Windows.ParseValues | src/binary/mod.rs:85-178 | a file without `"PSF window size"` is unsupported; a decode needs the value section, a traces list of groups only and a `"PSF sweep points"` integer; when the sweep is not also a leaf, it gets at least `sweep_points` samples and every leaf gets as many as the sweep |
| Binary.Section | src/binary/mod.rs:505-507 | a section's range is found exactly when the table lists it |
| Binary.Parse | src/binary/mod.rs:37-44 | a decode needs all five sections and a windowed header; its types sit under their own ids, its traces are groups of the right size, and every leaf has as many samples as the sweep |
| Binary.UnwindowedRejected | src/binary/mod.rs:85-89 | a file whose header lacks the window size is rejected as unsupported once the earlier sections decode |
| Legacy.Signed32 | src/binparse/mod.rs:105-108 | `i32::from_be_bytes` is the two's-complement reading of the unsigned word |
| Legacy.ReadI32 | src/binparse/mod.rs:110-114 | succeeds exactly when four bytes remain; the signed word is congruent to the unsigned one |
| Legacy.PeekI32 | src/binparse/mod.rs:105-108 | the word `read_i32` would consume, without consuming it |
| Legacy.ParseEnd | src/binparse/mod.rs:55-57 | drops exactly the first four bytes, and fails when they are not there |
| Legacy.ParseString | src/binparse/mod.rs:85-93 | a length word that is negative as `i32` fails its slice; otherwise it behaves as the binary decoder's string reader |
| Legacy.StringAgrees | src/binparse/mod.rs:85-93 | on buffers shorter than 2^31 + 4 bytes, both string readers agree |
| Legacy.ParseNamedValue | src/binparse/mod.rs:59-83 | the tag picks the variant as in the binary decoder, and integers are signed 32-bit |
| Legacy.SignExtend | src/binparse/mod.rs:70 | sign extension changes only integers, and keeps them congruent modulo 2^32 |
| Legacy.NamedValueSignExtension | src/binparse/mod.rs:59-83 | on inputs of at most 2^31 bytes, a record decodes exactly when the binary decoder's does, to its sign-extended value |
| Legacy.NamedValueList | src/binparse/mod.rs:44-48 | the header loop stops once at most four bytes remain |
| Legacy.HeaderBody | src/binparse/mod.rs:39-41 | the body is the binary decoder's, provided the end offset reads as a non-negative `i32` |
| Legacy.ParseHeader | src/binparse/mod.rs:38-53 | a header decodes only when its body range does |
| Legacy.ListSignExtension | src/binparse/mod.rs:44-48 | on record bodies of at most 2^31 bytes, the record lists of both decoders agree up to sign extension |
| Legacy.HeaderSignExtension | src/binparse/mod.rs:38-53 | on files shorter than 2^31 bytes, both decoders accept the same headers, with the same records up to sign extension |
| Legacy.Reinterpret | src/binparse/mod.rs:17-19 | a directory word read as `i32` and cast to `usize` is congruent to the unsigned word, and equal to it below 2^31 |
| Legacy.DirectoryOf | src/binparse/mod.rs:9-19 | the directory is found exactly when the binary decoder finds it and the size word is below 2^31; each entry is the reinterpreted binary entry |
| Legacy.ParseToc | src/binparse/mod.rs:8-36 | a table is built exactly when the signed directory is found and all its kind codes are known |
| Legacy.TocAgrees | src/binparse/mod.rs:8-36 | when the size and directory words are below 2^31, both decoders build the same table |
| Aliases.Claim | src/parser/analysis/transient.rs:22-28 | the member loop succeeds exactly when all claimed entries exist and are signals |
| Aliases.ClaimInserts | src/parser/analysis/transient.rs:22-28 | the group's name is paired with each member in order, so the last member wins |
| Aliases.FlattenMatches | src/parser/analysis/transient.rs:17-35 | the trace loop succeeds exactly when the list splits into well-formed units, and it inserts their alias pairs in order |
| Aliases.FlattenFromStart | src/parser/analysis/transient.rs:15-35 | from an empty map, the loop builds the map of the list's alias pairs |
| Aliases.AliasOfLastPair | src/parser/analysis/transient.rs:13-35 | a name ends up aliased to the target of its last pair |
| Aliases.StrictFlatten | src/parser/transient.rs:15-35 | the strict loop succeeds exactly when the list alternates count-one groups and signals |
| Aliases.StrictIsGeneral | src/parser/transient.rs:17-35 | wherever the strict loop succeeds, the general loop builds the same map |
| Gather.Collect | src/parser/analysis/transient.rs:40-51 | the value loop succeeds exactly when every entry routes, and otherwise fails with the first failing entry's error |
| Gather.CollectContents | src/parser/analysis/transient.rs:40-51 | the loop holds a vector for exactly the keys something is routed to, with those samples in entry order, and collects the parameter samples in order |
| Gather.BucketEmpty | src/parser/analysis/transient.rs:43-46 | a key's samples are non-empty exactly when some entry is routed to it |
| Gather.NoEmptyVector | src/parser/analysis/dc.rs:61-65 | every vector the loop creates holds at least one sample |
| Views.StrictRoute | src/parser/transient.rs:40-45 | an entry needs exactly one sample and a mapped name, and is filed under the name's alias |
| Views.TransientStrict | src/parser/transient.rs:12-52 | the strict view needs the alternating trace shape, no trace named `"time"` (a clash fails as a duplicate key), and routable entries; each alias then holds its entries' samples in order |
| Views.TransientRoute | src/parser/analysis/transient.rs:41-50 | an entry needs real samples, exactly one of them, and a mapped name; a complex entry fails |
| Views.Transient | src/parser/analysis/transient.rs:12-57 | the view needs well-formed traces and routable entries; each alias holds its entries' samples in order, and no vector is empty |
| Views.AcRoute | src/parser/ac.rs:41-59 | each entry needs exactly one sample; `"freq"` entries must be real and feed the frequency axis, others must be complex and go to their alias |
| Views.Ac | src/parser/ac.rs:12-63 | the frequency axis is the `"freq"` samples in order, and each alias holds its complex samples in order |
| Views.FreqOnlyOnAxis | src/parser/ac.rs:41-47 | the axis gets one sample per `"freq"` entry, and those entries never reach a signal |
| Views.SweepVar | src/parser/analysis/dc.rs:46-51 | no sweep gives no sweep variable, one sweep gives its name, and more than one fails the debug assertion |
| Views.DcRoute | src/parser/analysis/dc.rs:55-69 | an entry needs one real sample; the sweep's entries feed the parameter, and others go to their alias or their own name |
| Views.Dc | src/parser/analysis/dc.rs:20-81 | a sweep view exactly when there is a sweep, with the parameter's name and samples in order; otherwise an operating point holding each signal's first sample |
| Views.FirstSamples | src/parser/analysis/dc.rs:77-79 | the operating point keeps every key and its vector's first sample |
| Views.Lookup | src/parser/ac.rs:71-74 | `signal(name)` gives the named vector exactly when the name is present |
| Views.IdxBeforeTime | src/parser/analysis/transient.rs:59-63 | fails without a `"time"` vector; any index it gives holds a time at or before `t`, and on sorted times it is the latest such index |
| Views.StrictIdxBeforeTime | src/parser/transient.rs:56-58 | with the module's own search as written: fails without a `"time"` vector, gives none on an empty one, and any index it gives holds a time at or before `t` and never lies past the latest such index |
| Views.IdxBeforeFreq | src/parser/ac.rs:65-69 | any index it gives holds a frequency at or before `f`, and on sorted frequencies it is the latest such index |
| Search.Compare | src/parser/transient.rs:78 | the three outcomes of the comparison match `<`, `==` and `>` |
| Search.TotalKey | src/parser/transient.rs:78 | the key `total_cmp` orders a 64-bit pattern by is a signed 64-bit integer, and negative exactly for patterns with the sign bit set |
| Search.TotalKeyInjective | src/parser/transient.rs:78-84 | distinct patterns never compare equal |
| Search.LastAtMost | src/parser/transient.rs:54-55 | the greatest index whose key is at most the target, or none when every key exceeds it |
| Search.Probe | src/parser/transient.rs:75-86 | as written, any index the loop returns holds a key at most the target |
| Search.BinSearchBeforeAsWritten | src/parser/transient.rs:66-89 | as written: none on an empty slice, and any index returned holds a key at most the target |
| Search.AsWrittenNotPastIntended | src/parser/transient.rs:66-89 | as written, the index returned never lies past the intended one |
| Search.SingletonMissed | src/parser/transient.rs:73-75 | on `[5]` with target 5 the code finds nothing, where index 0 was intended |
| Search.UnderflowAtStart | src/parser/transient.rs:79 | on `[5, 6]` with target 1 the first probe underflows `mid - 1` |
| Search.NotGreatest | src/parser/transient.rs:75-88 | on `[1, 2, 3]` with target 3 the code returns 1, where 2 was intended |
| Search.BinSearchBefore | src/parser/transient.rs:54-89 | corrected: any index returned holds a key at most the target, and on sorted keys it is exactly the latest such index |

`signal(name)` of all four
views (`src/parser/analysis/transient.rs:65-68`, `src/parser/ac.rs:71-74`,
`src/parser/analysis/dc.rs:84-95`) is `Views.Lookup` on the view's map.

## Left out

- Floating point: samples in the binary decoder are 64-bit patterns. No IEEE
  arithmetic is modelled, and none is performed by the core. The views take
  samples of an opaque type. The search orders them through a key function:
  `Search.TotalKey` for `f64::total_cmp`, or any other total order.
- `src/binary/ast.rs` and `src/parser/ast.rs` are not part of this model.
  `DataType::from_u32` is taken to accept the codes 1, 2, 5, 11, 12 and
  16. `Value::int`, `Trace::group`, `real_mut` and `complex_mut` are taken to
  panic on the other variant.
- The text front end's grammar (`src/parser/mod.rs` and the pest grammar) is
  not modelled. The views take its tree as input. Its sweep list is reduced
  to the sweep names.
- `parse` (`src/binary/mod.rs:12-16`) wraps the driver and always returns
  `Ok`. Here a malformed file gives `Fail` instead of aborting.
- The lazily parsed table of contents (`src/binary/mod.rs:51-59`) is parsed
  once. Re-parsing the same bytes gives the same table.
- The `println!` of the sweep name (`src/binary/mod.rs:118`) is output only.
- `HashMap` iteration order never reaches a result, so maps are Dafny maps.
- `read_f64`, `parse_float` and `SectionKind::from_int` of
  `src/binparse/mod.rs` are the binary decoder's and reuse its models.
  `Toc::new` is unused.
- Views.IdxBeforeTime: `src/parser/analysis/transient.rs:62` calls
  `crate::bin_search_before`, whose body is not part of this model. It is
  modelled by the promise of the doc comment at lines 59-60, the latest
  time at or before `t`, through `Search.BinSearchBefore`. The only
  implementation in view, `src/parser/transient.rs:66-89`, does not keep
  that promise (see Findings), and `Views.StrictIdxBeforeTime` models the
  view that calls it.
- Views.IdxBeforeFreq: `src/parser/ac.rs:68` calls the same crate-root
  search. It is modelled by the promise of the doc comment at lines 65-66
  through `Search.BinSearchBefore`.
- Windows.ReadWindows: the sum of window counts is proved to be at least
  `sweep_points` and below `sweep_points + 2^16`, not equal to it. The code
  promises no more than that.
- Legacy.StringAgrees: agreement is proved only for buffers shorter than
  2^31 + 4 bytes. Past that, a length word with the top bit set reads as
  negative in one decoder and as a large length in the other.
- Legacy.NamedValueSignExtension: proved for inputs of at most 2^31 bytes,
  for the same reason.
- Legacy.ListSignExtension: proved for record bodies of at most 2^31
  bytes, for the same reason.
- Legacy.HeaderSignExtension: proved for files shorter than 2^31 bytes, for
  the same reason.
- Legacy.TocAgrees: proved when the size word and the directory words are
  below 2^31. Above that, the older decoder's offsets wrap to huge `usize`
  values.
- Search.BinSearchBefore: `(lo + hi) / 2` cannot overflow for slices that
  fit in memory, so no overflow is modelled there.
- Views.Dc: the `debug_assert_eq!(ast.sweeps.len(), 1)` is taken as a
  failure, as in a debug build.

## Findings

| source | as written | input that shows it | evidently intended | confidence | as-written member | corrected member |
|---|---|---|---|---|---|---|
| src/parser/transient.rs:66-89 | `hi` starts at the last index and the loop stops at `lo == hi` without comparing that slot | `[1, 2, 3]` with target 3 gives `Some(1)`, and `[5]` with target 5 gives `None` (`Search.NotGreatest`, `Search.SingletonMissed`) | the greatest index `i` with `data[i] <= target`, as the doc comment at lines 54-55 says | not executed | Search.BinSearchBeforeAsWritten | Search.BinSearchBefore |
| src/parser/transient.rs:79 | `hi = mid - 1` on a `usize` when `mid` is 0 | `[5, 6]` with target 1 probes index 0 first, and `0 - 1` overflows: a panic in a debug build; in a release build `hi` wraps to `usize::MAX`, and the next probe `data[usize::MAX / 2]` panics out of bounds (`Search.UnderflowAtStart`) | `None`: no key is at most the target | not executed | Search.BinSearchBeforeAsWritten | Search.BinSearchBefore |
