# DBCS table generator of iconv-lite, modelled in Dafny

This project models the generator that builds iconv-lite's double-byte character-set (DBCS) lookup tables. It also models the registry that the generator writes to `encodings/dbcs.js` for GBK, GB2312, Big5 and EUC-KR.

It covers four parts:

- **The table builder** (`writeTable`), in `table_builder.dfy`.
  - It first probes a reference converter on every byte 0x00–0x7F. Each must give exactly one UTF-16 code unit. A unit different from the byte is only a warning.
  - It then probes every pair with lead byte 0x80–0xFF and any trail byte, in row-major order. Each pair must give one code unit, or be rejected with `EILSEQ`, which is stored as U+FFFD.
  - It packs the units little-endian into a 65536-byte buffer, so that pair (a, b) sits at slot (a − 0x80)·256 + b.
  - Any other anomaly aborts the build: no code unit or several, `EINVAL`, or any other converter error.
  - The pure functions `AsciiScan`, `RowScan`, `PairScan` and `Build` specify the build. The imperative methods `CheckAscii`, `FillSlot`, `FillRow`, `FillLead`, `FillPairs` and `WriteTable` write a real `array` and are proved to compute exactly `Build`.
- **Name normalization and file names**, in `naming.dfy`. A registry key is a converter name with `-` and `_` removed, then lower-cased. A table file is `./encodings/dbcs_tables/<key>.bin.gz`.
- **The registry fold**, in `generator.dfy`.
  - It starts from the seed `{euccn: "gb2312"}` and walks every member of every family, in order.
  - For each member it applies the family's optional `convert` and picks `name ? name : encoding`.
  - It builds the member's table, then inserts `key → {type: "dbcs", filename}` and `alias → key`, by plain assignment.
  - The specification is the left fold `Generate`. The imperative `GenerateRegistry` / `RegisterEncoding` / `InsertAliases` are proved equal to it.
  - The fold is stated over a function `Tables` from converter names to build outcomes. `TablesOf` instantiates that function with the real builder.
- **The artifact**, in `dbcs_registry.dfy`.
  - The checked-in map `Artifact`, and `Resolve`, the one-hop lookup the registry is laid out for: an alias names a key that holds a table entry.
  - A proof that the map is exactly what the fold produces for the family list [gbk, gb2312, big5, euc-kr].
  - A proof that the generator's current list, which also names cp936, produces the same map plus a cp936 entry.

The converter (the `iconv` binding converting to UTF-8, read back as a JavaScript string) is abstract, in `converter.dfy`. It is a function from the probed bytes to either the decoded UTF-16 code units or an error code. The constructor `new Iconv(name, "UTF-8")` is a function from names to an optional converter.

Points where the generator is more permissive than one might expect:

- **Duplicate identifiers.** A later insertion under an existing key silently overwrites the earlier one; nothing rejects it. `DuplicateBig5Overwrites` shows a run with "big5" in two families succeeding, with a single registry entry and the table file written twice.
- **Alias chains.** Nothing rejects an alias chain longer than one hop, or an alias whose target is not a key, when the registry is built. The model states one-hop-ness only as a property of the checked-in artifact (`RegistryOneHop`).
- **The single-byte range.** The table covers only lead bytes 0x80–0xFF; the ASCII probe checks bytes 0x00–0x7F but writes nothing for them.
- **EILSEQ on an ASCII byte.** The ASCII probe has no `try`, so an `EILSEQ` there aborts the build like any other converter error.

## Model

| member | source | states |
|---|---|---|
| TableBuilder.SlotAccepted | generation/generate-dbcs.js:135-152 | a pair's slot passes exactly when the converter returns one code unit or rejects with EILSEQ; the stored unit is that unit, or U+FFFD for EILSEQ |
| TableBuilder.SlotIndexOrder | generation/generate-dbcs.js:132-157 | every slot lies inside the 32768-slot table; slot numbers are strictly increasing in probing order (smaller lead, or same lead and smaller trail) and distinct pairs get distinct slots |
| TableBuilder.LittleEndian | generation/generate-dbcs.js:154 | a one-unit string is written as two bytes, low byte first, whose value is the unit |
| TableBuilder.LittleEndianRoundTrip | generation/generate-dbcs.js:154 | reading back the two written bytes gives the unit, and they are the only two bytes that do |
| TableBuilder.AsciiScanPass | generation/generate-dbcs.js:121-129 | the ASCII check over bytes below n passes iff every byte converts to exactly one code unit; the warnings are then exactly the mismatching bytes, strictly increasing |
| TableBuilder.AsciiScanStop | generation/generate-dbcs.js:121-126 | a stopped ASCII check stops with the reason of the first byte that is not ASCII-compatible, all earlier bytes being compatible |
| TableBuilder.AsciiStopPersists | generation/generate-dbcs.js:121-126 | once the ASCII check has stopped, probing more bytes keeps the same reason |
| TableBuilder.RowScanPass | generation/generate-dbcs.js:134-156 | one lead byte's row passes iff every slot passes, and it then holds 2 bytes per trail byte, each slot's unit little-endian at offset 2b |
| TableBuilder.RowScanStop | generation/generate-dbcs.js:134-156 | a stopped row stops at its first failing trail byte, all earlier ones passing |
| TableBuilder.RowStopPersists | generation/generate-dbcs.js:134-156 | once a row has stopped, further trail bytes keep the same reason |
| TableBuilder.PairScanPass | generation/generate-dbcs.js:132-157 | the pair fill over r lead bytes passes iff every pair of those rows passes |
| TableBuilder.PairScanBytes | generation/generate-dbcs.js:132-157 | a passing pair fill over r rows is 512·r bytes, with each pair's unit little-endian at byte 2·SlotIndex(a, b) |
| TableBuilder.PairScanStop | generation/generate-dbcs.js:132-157 | a stopped pair fill stops at the first failing pair in row-major order, all earlier pairs passing |
| TableBuilder.PairStopPersists | generation/generate-dbcs.js:132-157 | once the pair fill has stopped, further rows keep the same reason |
| TableBuilder.BuiltIff | generation/generate-dbcs.js:115-157 | a build succeeds iff every ASCII byte converts to one code unit and every pair converts to one code unit or is rejected with EILSEQ; ASCII mismatches do not matter |
| TableBuilder.IdeographicBuilds | generation/generate-dbcs.js:121-157 | a converter that returns one code unit for every probe builds, although every ASCII byte then draws a warning; so a successful build, the premise of the layout lemmas, is possible |
| TableBuilder.BuiltLayout | generation/generate-dbcs.js:118-157 | a built table is 65536 bytes; pair (a, b) sits at byte 2·((a−0x80)·256+b), low byte first; a one-unit result is stored as that unit and an EILSEQ rejection as FD FF (U+FFFD), and a decoder reads the unit back |
| TableBuilder.LayoutExample | generation/generate-dbcs.js:132-157 | when pair B0 A1 converts to U+554A, the table holds 4A 55 at bytes 24898-24899 |
| TableBuilder.RejectedExample | generation/generate-dbcs.js:143-145 | when pair FF FF is rejected with EILSEQ, the last two bytes of the table are FD FF |
| TableBuilder.BuiltWarnings | generation/generate-dbcs.js:120-129 | the warnings of a built table are exactly the ASCII bytes whose code unit differs from the byte, below 0x80 and strictly increasing |
| TableBuilder.AbortedAtFirstAnomaly | generation/generate-dbcs.js:121-157 | an aborted build carries the reason of the first anomaly: the first ASCII byte that stops, or, when all ASCII bytes pass, the first pair in row-major order that is not accepted |
| TableBuilder.PairAnomalyAborts | generation/generate-dbcs.js:139-151 | a pair with zero or several code units, EINVAL or any other error aborts the build |
| TableBuilder.AsciiAnomalyAborts | generation/generate-dbcs.js:121-126 | an ASCII byte without exactly one code unit, or any converter error on it, aborts the build |
| TableBuilder.CheckAscii | generation/generate-dbcs.js:120-129 | the first loop returns exactly the ASCII scan: the mismatch warnings, or the first stopping probe |
| TableBuilder.FillSlot | generation/generate-dbcs.js:135-155 | one probe writes the slot's unit little-endian at offset i and keeps the bytes before i, or reports the anomaly |
| TableBuilder.FillRow | generation/generate-dbcs.js:134-156 | the inner loop fills 512 bytes with exactly the row scan of its lead byte, or stops with the row's first anomaly |
| TableBuilder.FillLead | generation/generate-dbcs.js:133-157 | one iteration of the outer loop extends the buffer by one row of the pair fill, or stops with the whole pair fill's reason |
| TableBuilder.FillPairs | generation/generate-dbcs.js:131-157 | the pair fill leaves the buffer equal to the specified 65536-byte table, or reports the first anomaly |
| TableBuilder.WriteTable | generation/generate-dbcs.js:115-157 | a fresh 65536-byte buffer that, on success, is exactly the built table, with the ASCII warnings; otherwise the abort reason |
| Naming.StripFacts | generation/generate-dbcs.js:93 | separator removal leaves no `-` or `_`, never lengthens the name, and leaves a separator-free name unchanged |
| Naming.Normalize | generation/generate-dbcs.js:93 | the key has no separator and no upper-case ASCII letter, and is no longer than the name |
| Naming.LowerAsciiFacts | generation/generate-dbcs.js:93 | lower-casing leaves no upper-case letter, does not create or remove separators, and fixes every other character |
| Naming.NormalizeFixedPoint | generation/generate-dbcs.js:93 | a name is in normal form iff normalization leaves it unchanged |
| Naming.NormalizeIdempotent | generation/generate-dbcs.js:93 | normalizing twice equals normalizing once |
| Naming.NormalizeIgnoresSeparator | generation/generate-dbcs.js:93 | inserting a `-` or `_` anywhere does not change the key |
| Naming.StripIgnoresSeparator | generation/generate-dbcs.js:93 | inserting a separator anywhere does not change the stripped name |
| Naming.StripKeeps | generation/generate-dbcs.js:93 | a character survives stripping iff it occurs in the name and is not a separator |
| Naming.NormalizeEucKr | generation/generate-dbcs.js:93 | the key of "euc-kr" is "euckr" |
| Naming.NormalizeEucKrVariant | generation/generate-dbcs.js:93 | the key of "EUC_KR" is also "euckr" |
| Naming.FilenameParts | generation/generate-dbcs.js:95 | a table file name is the tables directory, then the key, then ".bin.gz" |
| Naming.FilenameInjective | generation/generate-dbcs.js:95 | different keys get different table files |
| Generator.AddAliasesEffect | generation/generate-dbcs.js:103-106 | inserting aliases maps each alias to the key, keeps every other entry, and adds exactly the aliases to the key set |
| Generator.AddEncodingUpdates | generation/generate-dbcs.js:89-106 | a member that builds appends its table file, adds exactly its key and aliases, stores its table entry unless an alias shadows the key, points each alias at the key, and keeps all other entries (overwriting without error) |
| Generator.MembersOfHalted | generation/generate-dbcs.js:87-108 | a halted run stays halted through any further members |
| Generator.MembersHaltPersists | generation/generate-dbcs.js:88-107 | once a family's member loop halts, its remaining members change nothing |
| Generator.FamiliesHaltPersists | generation/generate-dbcs.js:87-108 | once the family loop halts, the remaining families change nothing |
| Generator.GenerateNoFamilies | generation/generate-dbcs.js:81-84 | with no families the registry is the seed `{euccn: gb2312}` and no file is written |
| Generator.GenerateOneFamily | generation/generate-dbcs.js:87-108 | a run over one family is that family's member loop from the seed |
| Generator.AddEncodingSucceedsIff | generation/generate-dbcs.js:89-101 | one member succeeds iff the run has not halted, the member has a converter name, a converter exists for it and its build does not abort |
| Generator.MembersSucceedIff | generation/generate-dbcs.js:88-107 | a member loop succeeds iff it starts unhalted and every member builds |
| Generator.GeneratedIff | generation/generate-dbcs.js:81-108 | a run writes the registry iff every member of every family builds |
| Generator.FamiliesSucceedIff | generation/generate-dbcs.js:87-108 | the family loop succeeds iff it starts unhalted and every member of every family builds |
| Generator.MembersKeySet | generation/generate-dbcs.js:88-107 | a successful member loop adds exactly its members' keys and aliases |
| Generator.FamiliesKeySet | generation/generate-dbcs.js:87-108 | a successful family loop adds exactly its families' keys and aliases |
| Generator.GeneratedKeys | generation/generate-dbcs.js:81-108 | the written registry's keys are "euccn" plus every member's normalized name and aliases |
| Generator.AddEncodingSound | generation/generate-dbcs.js:92-106 | one member preserves soundness: table entries have type "dbcs" and the file derived from a normal key, aliases target normal keys, and files hold full tables |
| Generator.MembersSound | generation/generate-dbcs.js:88-107 | a member loop preserves soundness |
| Generator.FamiliesSound | generation/generate-dbcs.js:87-108 | a family loop preserves soundness |
| Generator.GeneratedSound | generation/generate-dbcs.js:81-118 | every registry the generator writes is well formed and every table file it writes holds 65536 bytes |
| Generator.TablesOfFull | generation/generate-dbcs.js:115-157 | every successful build yields a full 65536-byte table |
| Generator.AddBareEncoding | generation/generate-dbcs.js:92-101 | a member with no conversion step whose table builds adds its table entry and its file |
| Generator.DuplicateBig5Overwrites | generation/generate-dbcs.js:98-101 | two families both declaring "big5" do not fail: the registry holds one big5 entry and the same file is written twice |
| Generator.BareStep | generation/generate-dbcs.js:88-101 | one more member of a family with no conversion step inserts its table entry and appends its file |
| Generator.BareMembers | generation/generate-dbcs.js:88-107 | a family with no conversion step whose tables all build inserts one table entry per normalized name, in order, and nothing else |
| Generator.NormalizeKnownNames | generation/generate-dbcs.js:70 | the keys of gbk, gb2312, big5 and cp936 are those names, and the key of euc-kr is euckr |
| Generator.HaltPropagates | generation/generate-dbcs.js:87-108 | a failure at any member ends the whole run with that failure |
| Generator.InsertAliases | generation/generate-dbcs.js:103-106 | the alias loop computes exactly the alias insertion |
| Generator.RegisterEncoding | generation/generate-dbcs.js:89-106 | one member's iteration computes exactly the specified step, with the real table builder |
| Generator.GenerateRegistry | generation/generate-dbcs.js:81-108 | the nested loops compute exactly the fold over all families and members, halting at the first failure |
| DbcsRegistry.ResolveOneHop | encodings/dbcs.js:1-19 | in a one-hop registry every key resolves to a key holding a table entry with the returned file; a table key resolves to itself and an alias to its target; resolving again gives the same answer |
| DbcsRegistry.ResolveUnknown | encodings/dbcs.js:1-19 | a key outside the registry is unrecognized |
| DbcsRegistry.RegistryKeys | encodings/dbcs.js:1-19 | the artifact's keys are exactly euccn, gbk, gb2312, big5 and euckr |
| DbcsRegistry.RegistryOneHop | encodings/dbcs.js:2 | every alias of the artifact targets a table entry |
| DbcsRegistry.EuccnResolvesToGb2312 | encodings/dbcs.js:2-10 | euccn is an alias of gb2312, and both resolve to the gb2312 table |
| DbcsRegistry.RegistryWellFormed | encodings/dbcs.js:1-19 | every table entry has type "dbcs" and the file name derived from its normal key, and the alias target is normal |
| DbcsRegistry.RegistryEntry | encodings/dbcs.js:1-19 | the same, for one key of the artifact |
| DbcsRegistry.RegistryKeysNormal | encodings/dbcs.js:1-19 | every key of the artifact is a fixed point of normalization |
| DbcsRegistry.LookupEucKrSpelling | encodings/dbcs.js:15-18 | the spelling "EUC_KR" normalizes to a key that resolves to the euckr table |
| DbcsRegistry.ArtifactIsGenerated | encodings/dbcs.js:1-19 | a run over [gbk, gb2312, big5, euc-kr] whose tables build writes exactly the artifact |
| DbcsRegistry.ArtifactMembers | generation/generate-dbcs.js:87-108 | the four members insert their table entries into the seed, in order |
| DbcsRegistry.ArtifactKeys | generation/generate-dbcs.js:93 | the keys of the four names are gbk, gb2312, big5 and euckr |
| DbcsRegistry.ArtifactEntries | generation/generate-dbcs.js:95-101 | inserting those four keys into the seed gives the artifact's entries |
| DbcsRegistry.ArtifactChainIsRegistry | encodings/dbcs.js:1-19 | the inserted entries are exactly the artifact's |
| DbcsRegistry.CurrentListAddsCp936 | generation/generate-dbcs.js:67-108 | a run over the current family list, which also names cp936, writes the artifact plus a cp936 table entry, cp936 not being a key of the artifact |
| DbcsRegistry.Cp936Absent | encodings/dbcs.js:1-19 | "cp936" is not a key of the artifact |
| DbcsRegistry.CurrentEntries | generation/generate-dbcs.js:95-101 | inserting the five current keys into the seed gives the artifact plus a cp936 entry |
| DbcsRegistry.CurrentKeys | generation/generate-dbcs.js:70 | the keys of the five current names are gbk, gb2312, big5, euckr and cp936 |
| DbcsRegistry.KnownFilenames | generation/generate-dbcs.js:95 | the file names of the four keys are the artifact's file names |

## Left out

- The gzip compression and the file stream (lines 159-163). A table file is modelled by its uncompressed contents and its name; the model does not capture files written before a later abort, or the asynchronous completion of the gzip.
- The SHA-1 hash of each table and all console logging (lines 116, 128, 140, 147, 166-167). A mismatch warning appears only as the list of bytes that drew it.
- Writing `encodings/dbcs.js` with `JSON.stringify` (lines 111-112). The model is the map value. The key order of the JavaScript object is not modelled, because a Dafny map is unordered.
- The real iconv mappings. The converter is any function from bytes to code units or an error code, and `new Iconv` is any function from names to an optional converter. Decoding UTF-8 into a JavaScript string is folded into the converter's UTF-16 result.
- Naming.Normalize: lower-casing is modelled for ASCII letters A-Z only. JavaScript's `toLowerCase` also maps non-ASCII letters.
- The initial contents of `new Buffer(size)`. It is uninitialised memory, and every byte is overwritten before a table is returned, so it does not matter.
- The commented-out `convert` function of the family list (lines 71-76). Families may still carry any `convert`, and the fold handles its aliases.
- Rejection of duplicate identifiers and of multi-hop or dangling aliases, and an atomic write-then-rename of output files: the generator does none of these, so the model does not either.
- The code that reads `encodings/dbcs.js` at run time is not part of this model. `Resolve` is the one-hop lookup the registry's layout supports, not a model of that decoder-side code. `LookupEucKrSpelling` assumes the lookup normalizes a requested name as line 93 does; how the real lookup normalizes names is not modelled.
