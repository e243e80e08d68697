# ATA tools: verified models

A Dafny model of the parts of the ATA tools that are hardest to get right, with proofs of what they
promise. It follows the Python and C code branch by branch; where the code and a plausible promise
part ways, the exact condition is proved instead.

- **Firmware packages** (`ZupBank`, `ZupRebuild`, `ZupRebuilt`): a `+kxz` package is parsed into a
  512 KiB bank and a bank is printed back under a template's map. The codec is any pair of functions with three laws
  (`Codec.Lawful`): what was deflated inflates back from the front of any longer input, inflation
  looks at no more than it consumes, and nothing deflates to nothing. CRC-32 is any function.
- **Edits in place** (`ZupPayloads`, `ZupSection`, `ZupCompose`, `ZupComposer`, `ZupComposed`, `ZupOutcome`,
  `ZupWitnesses`): launch records and compressed payloads are replaced inside the bank and an XOR
  checksum is repaired. `ZupOutcome` says which manifests validate, when composition succeeds, and with
  which bank, without the functions that the program is proved equal to.
- **Launch tables in C** (`ZupLaunch`, `ZupTrace`): header parsing, the preflight with its 64-bit
  address arithmetic, and the trace that is emitted only after it.
- **Skinny signalling** (`SkinnyFrames`, `SkinnyEndpoint`): an incremental frame decoder under a
  registration session.
- **MIPS-X code** (`MipsxWords`, `MipsxInference`, `MipsxDeltas`, `MipsxFlow`, `MipsxPrograms`): ranking
  of call anchors by counting pairs, the static summary of control transfers, and the interpreter with two delay slots.
- **Profiles** (`CfgChecksum`, `CfgCipher`, `CfgRecords`, `CfgFiles`): tagged records, the two-file
  split, the internet-style checksum, RC4 and the strong envelope.
- **Servers** (`Tftp`, `FirmwareBlocks`, `FirmwareService`): state machines over every sequence of
  datagrams, clock readings and safety checks.

`Bytes`, `Pieces`, `Sorting`, `Wrappers` and `Codec` are shared. Bytes and words are bounded integers;
every sum that the source keeps in 32 bits, truncates or takes modulo 65535 is written out, and sums
that the source leaves unbounded are left so. Code that updates a buffer, a list or an object is a
method over arrays, sequences or class fields, proved equal to a function of its inputs or of the old
state; the theorems are about those functions. Where such a function decides something by itself, a
theorem says what in other terms: words by number, registers by value, counters by cardinality, replies
by their bytes. SHA-256 is only used to detect change and is modelled as equality of the data.

Five results are worth knowing before using the tools; each failure comes with a bank or a file that
shows it (`ZupWitnesses`, `CfgFiles.TextMarkerHappens`):

- A type-8 payload of mode 1 that composition accepts is found again if and only if the replacement
  fits between its destination and the end of the bank (`ComposePayloads`, `ReplacementLost`); the code
  does not check it.
- Repairing the section checksum fails exactly when the stored word lies in an odd number of the four
  descriptor ranges and had to change (`ComposeEnds`, `RepairFails`).
- A launch header at the section's own offset no longer parses to its table exactly when the sum of the
  edited bank differs from the stored word, which the repair then writes into the header's address
  (`ComposeTables`, `HeaderLost`).
- Launch tables may overlap at different offsets. The table at the higher offset is written last, so an
  edit in the other one is lost unless both agree on the records that they share (`AllHeld`, `EditLost`).
- A strongly protected profile does not read back under exactly those nonces that make its first four
  bytes the text marker, and every key and profile has such nonces (`TextMarkerIff`).

## Model

| member | source | states |
|---|---|---|
| ZupBank.ValidateDestinations | firmware/zup_bank.py:152-159 | the adjacency check on the sorted regions passes if and only if all regions are nonempty, inside the bank and pairwise disjoint |
| ZupBank.AdjacencyIsDisjointness | firmware/zup_bank.py:152-159 | the same equivalence for the sorted list as a function, by induction over insertion |
| ZupBank.ParseMap | firmware/zup_bank.py:183-219 | header, checksum and map checks give exactly the map or the fault that the format's reading function gives |
| ZupBank.InflateRegions | firmware/zup_bank.py:251-259 | inflating from a moving source cursor equals inflating each region's own cut of the package, with the first fault |
| ZupBank.BuildBank | firmware/zup_bank.py:183-268 | the whole parse equals `Reconstruction`: a blank bank painted with the raw and the inflated regions, or the first fault |
| ZupBank.PaintKeeps | firmware/zup_bank.py:261-266 | a region write that no later one reaches into survives in the bank |
| ZupBank.PaintCopies | firmware/zup_bank.py:261-266 | if every write copies from one source, a bank byte is the source's where a region reaches and blank elsewhere |
| ZupRebuild.RebuildPackage | firmware/zup_rebuild.py:56-125 | the imperative rebuild equals the function `Rebuild`, faults included |
| ZupRebuild.RebuildIff | firmware/zup_rebuild.py:56-125 | a rebuild succeeds if and only if the template is valid, the package stays in the size limit and the bank is 0xFF outside the mapped destinations; the result then reconstructs to that bank, and the two final guards never fire |
| ZupRebuild.PrintReconstructs | firmware/zup_rebuild.py:63-112 | every printed package in the limit is accepted by the parser and reconstructs to the bank masked by the map |
| ZupRebuild.RelaidReconstructs | firmware/zup_bank.py:183-268 | any package with a valid map whose streams inflate to slices of a bank reconstructs to that bank on its map |
| ZupRebuilt.RebuildReturns | firmware/zup_rebuild.py:62-125 | every successful rebuild returns the template's outer header, map and gap, the bank's bytes in the raw regions, the template's own stream for each preserved unchanged region and a new stream with checksum and size for each other; the counters are the cardinalities of these sets of regions |
| ZupRebuild.UnchangedRebuild | firmware/zup_rebuild.py:76-122 | rebuilding a template's own bank with preservation returns the template byte for byte and counts nothing changed |
| ZupRebuild.UnchangedPrintsTemplate | firmware/zup_rebuild.py:71-109 | the printer run on an unchanged bank reproduces every byte of the template |
| ZupSection.ReadSection | firmware/zup_extract.py:102-124 | the section reader equals the section's definition: magic, descriptors and the running XOR |
| ZupSection.ValidateSection | firmware/zup_launch_trace.c:196-251 | the C validator accepts and reports exactly what the Python reader does, its 32-bit sums never wrapping |
| ZupSection.FoldRepaired | firmware/zup_extract.py:120-121 | replacing the stored word changes a range's XOR by the difference if and only if the range contains the word |
| ZupSection.RepairIff | firmware/zup_extract.py:571-579 | after a repair the section still has its descriptors and stores the old sum, which agrees if and only if the word is covered an even number of times or was right already |
| ZupLaunch.ValidateRecords | firmware/zup_extract.py:325-350 | the record loop accepts exactly the proposals of the right length whose records are known, in range and whose only terminal is last |
| ZupLaunch.HeaderParsersAgree | firmware/zup_bank.py:271-301 | the C and Python header parsers agree on every bank, header and base but the last one |
| ZupLaunch.HeaderParsersDiffer | firmware/zup_launch_trace.c:253-310 | a bank on which they disagree at that last base |
| ZupLaunch.RecordFaultIff | firmware/zup_launch_trace.c:383-452 | the preflight's 64-bit checks pass a record if and only if it is known, every byte that it writes or address that it visits, for type 0xD in all four families, fits in 32 bits, and no write ends at 2^32 |
| ZupLaunch.TopOfSpaceRefused | firmware/zup_launch_trace.c:402-422 | a copy of one word to the last word of the 32-bit space fits and is refused |
| ZupLaunch.Preflight | firmware/zup_launch_trace.c:358-461 | the preflight loop returns the first faulty record's status, else the terminal's |
| ZupLaunch.PreflightIff | firmware/zup_launch_trace.c:358-461 | a table passes if and only if all records are reachable and the only terminal is last |
| ZupLaunch.PreflightImpliesValid | firmware/zup_extract.py:325-350 | whatever the C preflight accepts, the Python record check accepts |
| ZupTrace.SelectHeader | firmware/zup_launch_trace.c:483-568 | header choice by the section's sum, the pinned addresses and the preflight, in the C order |
| ZupTrace.TraceBank | firmware/zup_launch_trace.c:463-624 | the trace equals its specification for every callback |
| ZupTrace.AllOrNothing | firmware/zup_launch_trace.c:532-624 | a rejected bank emits no event; an accepted one emits its script in order, one event per record, up to the first callback that refuses |
| ZupTrace.TraceTells | firmware/zup_launch_trace.c:579-621 | each event shown tells what its record does: as many bytes as a copy or a clear writes, the source in the bank if it lies there, the visited blocks, the loaded register |
| ZupTrace.StaleIsAuxiliary | firmware/zup_launch_trace.c:497-540 | unequal sums select the auxiliary header, accepted exactly when it is the pinned one and passes the preflight |
| ZupTrace.ComposedIsMain | firmware/zup_launch_trace.c:497-511 | a bank composed from one with a section is traced from its main header or not at all, and exactly when that header is the pinned one and passes the preflight |
| ZupTrace.ComposedTraces | firmware/zup_launch_trace.c:483-568 | a composed bank whose main table no other overwrites is traced with the proposed records if and only if these pass the preflight |
| ZupPayloads.FoundLocal | firmware/zup_bank.py:304-378 | a payload's parse depends only on the bytes of its own span |
| ZupPayloads.NestedIff | firmware/zup_bank.py:304-336 | a nested payload parses if and only if its 24 bytes name the sums and sizes of what is stored and of the data, which is one stream with its checksum and size behind it |
| ZupPayloads.Type8Iff | firmware/zup_bank.py:339-378 | a type-8 payload parses if and only if its two words are legal and a stream of legal size with its checksum follows |
| ZupPayloads.RegionIff | firmware/zup_bank.py:162-180 | a stored region inflates if and only if it is one stream followed by checksum and size |
| ZupPayloads.Type8Repacked | firmware/zup_extract.py:483-488 | a repacked type-8 stream parses back to its data if and only if the data fits below the bank end from a mode-1 destination |
| ZupPayloads.NestedRepacked | firmware/zup_extract.py:491-501 | a repacked nested payload parses back to its data, sums, sizes and CRC included |
| ZupCompose.ProposalsFacts | firmware/zup_extract.py:421-455 | an accepted manifest header describes a source table, proposes as many valid records, and its proposal is kept |
| ZupCompose.EntriesFound | firmware/zup_extract.py:363-397 | every payload entry of a validated manifest is what the bank holds at its offset |
| ZupComposer.ValidateManifest | firmware/zup_extract.py:400-480 | the validation with its header loop equals `Validate`, faults included |
| ZupComposer.WriteTables | firmware/zup_extract.py:512-523 | the table loop, which packs only records that differ, writes every proposal over the buffer |
| ZupComposer.ApplyEntries | firmware/zup_extract.py:536-567 | the payload loop on the buffer equals the fold of single patches, with the first fault |
| ZupComposer.ComposeBank | firmware/zup_extract.py:504-580 | the whole composition in one buffer equals `Compose` |
| ZupOutcome.ComposeIs | firmware/zup_extract.py:504-580 | a validated manifest whose edited payloads are apart composes if and only if the section is valid, no proposal meets a protected span, every replacement has a legal size and, if it differs, packs into its span, size field and clear of protected spans, and the sum can be repaired; the result is the edited bank with its own sum |
| ZupOutcome.ValidateIff | firmware/zup_extract.py:400-480 | a manifest validates if and only if it is of this bank, has one good header for each launch table, agreeing where they share a table, and the inventory's payloads in any order; its proposals are those of its headers by rising offset |
| ZupComposed.PatchLocal | firmware/zup_extract.py:546-567 | a payload's patch is decided by its own bytes alone and fills its span exactly |
| ZupComposed.ComposeFrame | firmware/zup_extract.py:504-580 | with the edited payloads apart from each other, no byte changes outside edited records, edited payload spans and, when the sum changes, the check word; tables may overlap |
| ZupComposed.ComposeTables | firmware/zup_extract.py:512-523 | with no hypothesis on overlaps: a table of the composed bank holds its proposal if and only if the last proposal with a record at each of its records agrees, and its header parses to it if and only if, besides, it is not at the section's offset with a stored word other than the edited bank's sum |
| ZupComposed.AllHeld | firmware/zup_extract.py:512-523 | every proposal is held if and only if the proposals agree on the records that they share |
| ZupComposed.EditedClear | firmware/zup_extract.py:561-564 | the span that an edited payload has in the source overlaps no launch table, no launch header and no section header; this is a result, not a hypothesis |
| ZupComposed.PatchIff | firmware/zup_extract.py:546-560 | a payload can be replaced if and only if its packed replacement fits the span and the size field |
| ZupComposed.ComposePayloads | firmware/zup_extract.py:536-567 | every edited nested payload parses to its replacement, an edited type-8 one parses at all if and only if the replacement may be expanded, and then to it, and the rest of the span is 0xFF |
| ZupComposed.UneditedFound | firmware/zup_extract.py:536-567 | a payload left alone is still found unless an edited record, an edited payload or a changed sum reaches into its span |
| ZupWitnesses.HeaderLost | firmware/zup_extract.py:568-579 | a bank whose unedited extraction composes to one without its launch header |
| ZupWitnesses.RepairFails | firmware/zup_extract.py:571-579 | for every stored word a bank whose unedited extraction fails to compose |
| ZupWitnesses.EditLost | firmware/zup_extract.py:512-523 | an edited record that composition accepts and another table overwrites |
| ZupWitnesses.ReplacementLost | firmware/zup_extract.py:536-567 | a lawful codec, bank and replacement that compose and are not found again |
| ZupComposed.ComposeEnds | firmware/zup_extract.py:568-579 | without any hypothesis: the section-changed guards never fire, a bank without a section is returned as edited, and the repair succeeds if and only if coverage is even or nothing had to change |
| ZupComposed.ComposedSection | firmware/zup_extract.py:568-579 | a composed bank with a section stores its own sum under the source's descriptors |
| ZupComposed.SpansKept | firmware/zup_extract.py:561-567 | no payload edit changes a byte of a protected span, however the source's spans overlap |
| ZupComposed.ScanFinds | firmware/zup_extract.py:127-140 | the scan finds exactly the aligned offsets at which a nested payload parses |
| ZupComposed.InventoryIff | firmware/zup_extract.py:363-397 | a payload is in the inventory if and only if the bank holds it and, for type 8, a mapped record names its offset |
| ZupComposed.UneditedCompose | firmware/zup_extract.py:504-580 | an unedited manifest composes to the source bank with its sum repaired, and fails only on overlapping metadata or an odd, stale sum |
| ZupComposed.ExtractedValidates | firmware/zup_extract.py:164-274 | an extracted manifest is unedited and validates if and only if all its tables hold valid records |
| SkinnyFrames.FrameDecoder.Feed | telephony/skinny_fixture.py:117-147 | one feed of the buffer equals the scan of old buffer plus data, with the buffer and frame limits and the failure reset |
| SkinnyFrames.FrameRoundTrip | telephony/skinny_fixture.py:77-90 | encoding refuses exactly the frames with a field out of range, and an encoded frame decodes to itself alone |
| SkinnyFrames.ScanEncoded | telephony/skinny_fixture.py:87-90 | an encoded stream of valid frames scans to those frames with nothing left |
| SkinnyFrames.ScanRewrites | telephony/skinny_fixture.py:127-137 | whatever bytes decode to are valid frames, and encoding them before what is left gives the bytes back |
| SkinnyFrames.ScanAppend | telephony/skinny_fixture.py:127-137 | bytes that arrive later never change what was scanned before |
| SkinnyFrames.ChunkingIndependence | telephony/skinny_fixture.py:117-147 | one feed of a string succeeds if and only if feeding its chunks does within the two limits, with the same frames and the same buffer |
| SkinnyFrames.StreamSafe | telephony/skinny_fixture.py:117-147 | any stream of valid frames in chunks of at most 192 bytes is accepted, decoded exactly and leaves at most 2059 bytes between feeds |
| SkinnyFrames.ChunkBoundIsTight | telephony/skinny_fixture.py:24-26 | with chunks of 193 bytes a valid stream can trip the frame limit |
| SkinnyEndpoint.RegisterParsesIff | telephony/skinny_fixture.py:178-197 | a body parses if and only if its length is bounded and its first field is a visible name padded with zeros |
| SkinnyEndpoint.RegisterRoundTrip | telephony/skinny_fixture.py:158-197 | a built registration body parses to its name, type and version |
| SkinnyEndpoint.RegistersIff | telephony/skinny_fixture.py:252-261 | a frame registers if and only if it is a register message with the expected padded name and the ATA device type |
| SkinnyEndpoint.ConversationAnswered | telephony/skinny_fixture.py:248-308 | a registration of the expected device followed by keepalives is accepted and answered in full in any chunks of at most 192 bytes |
| SkinnyEndpoint.RingerIff | telephony/skinny_fixture.py:269-320 | in every run ringing succeeds if and only if the endpoint is registered and unbroken and the mode is legal, with one ringer frame of that mode; otherwise it breaks the endpoint |
| SkinnyEndpoint.FixtureEndpoint.Receive | telephony/skinny_fixture.py:300-308 | the endpoint's replies and new state for every byte string, both parts failing together |
| SkinnyEndpoint.EveryRun | telephony/skinny_fixture.py:281-327 | over every sequence of calls the two failure flags agree, failed means unregistered and emptied, and the replies since the last reset decode to one acknowledgement and then keepalive acknowledgements |
| SkinnyEndpoint.FailureAbsorbs | telephony/skinny_fixture.py:281-327 | after a failure no call but a reset changes anything |
| MipsxWords.ValidateRegions | firmware/mipsx_dasm.py:366-384 | succeeds if and only if the sorted regions are aligned, nonempty, in the image and apart, and returns them |
| MipsxWords.AddressInRegions | firmware/mipsx_dasm.py:395-405 | the binary search answers whether some region contains the address |
| MipsxWords.WordsInOrder | firmware/mipsx_dasm.py:387-392 | the words come in strictly rising address order, each from inside a region |
| MipsxWords.WordFields | firmware/mipsx_dasm.py:408-411 | only a word's own kind, operation, registers and low bits add up to it |
| MipsxWords.SignedField17 | firmware/mipsx_dasm.py:94-96 | the displacement is the two's complement number of 17 bits |
| MipsxInference.PrologueWords | firmware/mipsx_dasm.py:408-411 | the stack prologues are exactly the words 0xE77B0000 to 0xE77BFFFF |
| MipsxInference.ScoresByWord | firmware/mipsx_dasm.py:419-479 | the six scores of a base are cardinalities of sets of words, given by number, that lead to a prologue or into a region |
| MipsxInference.OutranksByKey | firmware/mipsx_dasm.py:480-486 | the ranking is the lexicographic order of the seven key numbers |
| MipsxDeltas.SharedAddresses | firmware/mipsx_dasm.py:516-523 | at a distance the shared targets are the addresses that both images' calls reach, wherever the first anchor is |
| MipsxInference.PairCounting | firmware/mipsx_dasm.py:447-451 | counting pairs by base equals summing, over the displacements, the references that land on a prologue modulo 2^32 |
| MipsxInference.TargetsAre | firmware/mipsx_dasm.py:447-451 | the targets collected for a base are exactly the prologues that calls reach under it |
| MipsxInference.TalliedWeight | firmware/mipsx_dasm.py:421-432 | a counter built word by word weighs exactly what its list hits |
| MipsxInference.ScoreBases | firmware/mipsx_dasm.py:457-479 | the scoring loops give every base the scores of the reference definition |
| MipsxInference.InferBaseCandidates | firmware/mipsx_dasm.py:414-487 | succeeds if and only if the work limits hold, and returns the best bases in order with scores that count calls and targets by definition |
| MipsxDeltas.MeetingsCount | firmware/mipsx_dasm.py:516-523 | counting displacement pairs by distance equals counting the displacements of one image that meet one of the other, and summing the fewer of their references |
| MipsxDeltas.InferSharedDeltas | firmware/mipsx_dasm.py:502-532 | succeeds if and only if both images are within the limit, and returns the best distances in order with counts by the reference definition |
| MipsxInference.InferredOrdered | firmware/mipsx_dasm.py:457-487 | prologue references never exceed in-range references, nor those the calls; a base is scored if and only if some call reaches a prologue under it |
| MipsxFlow.CollectControlFlow | firmware/mipsx_dasm.py:560-620 | the summary keeps the first transfers with their slot counts, counts all, and counts local call targets within the limit |
| MipsxFlow.Cpu.Run | firmware/mipsx_boot_trace.py:252-262 | the loop with its slot countdown equals the function of the start state |
| MipsxPrograms.BranchOutcomes | firmware/mipsx_boot_trace.py:135-159 | after a branch and two straight slots the program is at the target or behind the slots, by equality, unsigned or two's complement order of its registers for each operation; operations 0 and 4 never branch |
| MipsxPrograms.StoreThenLoad | firmware/mipsx_boot_trace.py:161-169 | a store and a load from the same place move the low 32 bits of one register into another and nothing else |
| MipsxPrograms.AddiUndoes | firmware/mipsx_boot_trace.py:238-241 | an immediate added and taken off again restores the register modulo 2^32 |
| MipsxPrograms.JumpsLogged | firmware/mipsx_boot_trace.py:219-232 | every jump but the return is logged with its address, register and destination |
| MipsxPrograms.BranchesByWord | firmware/mipsx_dasm.py:584-594 | which words the summary lists as branches, and which have squashed slots |
| MipsxPrograms.JumpsByWord | firmware/mipsx_dasm.py:595-606 | which words it lists as tail jumps and calls |
| MipsxPrograms.ControlsByWord | firmware/mipsx_dasm.py:607-619 | which words it lists as halts, exception returns and traps |
| MipsxFlow.TransferLands | firmware/mipsx_boot_trace.py:244-262 | a taken transfer executes the next two words and lands on its target when neither transfers or stops |
| MipsxFlow.SlotTransferReplaces | firmware/mipsx_boot_trace.py:244-250 | a transfer in the first slot replaces the pending one |
| MipsxFlow.StaticAgrees | firmware/mipsx_dasm.py:584-620 | a taken transfer is summarised with its slots and, where anchors are four times the registers, its target modulo 2^32; `branch_always` is always taken; other summarised words stop the run |
| MipsxFlow.BranchContinues | firmware/mipsx_dasm.py:586-594 | a conditional branch that is not taken goes on past its slots to the summary's continuation |
| MipsxFlow.CallLinks | firmware/mipsx_boot_trace.py:221-226 | a call's link is the summary's continuation in words modulo 2^32, and times four is the continuation if and only if that is below 2^34 |
| MipsxFlow.RunsAligned | firmware/mipsx_boot_trace.py:244-262 | the program counter is word aligned in every reachable state |
| MipsxFlow.TransfersInRuns | firmware/mipsx_boot_trace.py:252-262 | in every run from an aligned state, whatever its registers, a taken transfer visits the slots of its static summary and then its static target |
| MipsxFlow.CallLogCounts | firmware/mipsx_boot_trace.py:226-230 | in every run each target's count is the number of logged calls to it |
| CfgChecksum.Fold | firmware/cfgfmt.py:290-291 | the end-around fold terminates with the sum modulo 65535, and 65535 for nonzero multiples |
| CfgChecksum.ChecksumInternet | firmware/cfgfmt.py:281-292 | pair loop, odd tail, fold and complement equal the checksum's definition |
| CfgChecksum.SelfChecksum | firmware/cfgfmt.py:281-292 | data of even length followed by its own checksum has checksum 0 |
| CfgChecksum.OddSelfChecksumIff | firmware/cfgfmt.py:288-289 | for odd lengths that holds if and only if the last byte equals the high byte of the checksum |
| CfgCipher.KeySetup | firmware/cfgfmt.py:173-184 | the in-place key setup equals its function, an empty key counting as one zero byte |
| CfgCipher.SetupEnds | firmware/cfgfmt.py:173-184 | every run of the published key setup, given as a trace of boxes and indices, ends with the box that the program computes |
| CfgCipher.SetupTellsKeys | firmware/cfgfmt.py:173-184 | two keys lead through the same setup for n rounds if and only if their first n bytes, taken cyclically, are the same |
| CfgCipher.GeneratorStep | firmware/cfgfmt.py:236-248 | one step counts, adds, exchanges and gives the byte at the sum, place by place |
| CfgCipher.Rc4.Crypt | firmware/cfgfmt.py:236-248 | the stateful stream's output and new state |
| CfgCipher.StreamPermutes | firmware/cfgfmt.py:173-248 | the box holds every byte once after key setup and after every step, for every key |
| CfgCipher.CryptSplits | firmware/cfgfmt.py:236-248 | encrypting in pieces equals encrypting at once |
| CfgCipher.CryptRestores | firmware/cfgfmt.py:236-248 | a second pass from an equal state restores the data |
| CfgCipher.EnvelopeOpens | firmware/cfgfmt.py:1082-1093 | the strong envelope opens to its text for every key, nonce and text |
| CfgRecords.VarintRoundTrip | firmware/cfgfmt.py:254-271 | an encoded number decodes to itself anywhere in a buffer and the position moves behind it |
| CfgRecords.VarintBytes | firmware/cfgfmt.py:254-259 | numbers below 0x80 take one byte, others below 0x8000 two, the high one first and marked |
| CfgRecords.FlagBits | firmware/cfgfmt.py:949-957 | the sensitive and the extended flag are bits 14 and 15 of the format |
| CfgRecords.SmallRecords | firmware/cfgfmt.py:827-829 | after any series of stores the small records are written by strictly rising tag, and are exactly the last stores of their tags |
| CfgRecords.Profile.StorePseudo | firmware/cfgfmt.py:834-842 | replaces the entry in place or appends while there is room, keeping tags unique and at most 255 |
| CfgRecords.BuildRecords | firmware/cfgfmt.py:942-972 | the two filtering loops equal the encoding of the selected entries, with the first encoding fault |
| CfgRecords.DecodeRecords | firmware/cfgfmt.py:1170-1202 | the decoding loop equals its function, with the corrupt endings |
| CfgRecords.DecodeEncoded | firmware/cfgfmt.py:1170-1202 | written records decode to themselves in order, then to whatever follows |
| CfgRecords.TruncationReported | firmware/cfgfmt.py:1170-1202 | records cut inside the last one decode to those before it and are reported as corrupt |
| CfgFiles.WriteOneFile | firmware/cfgfmt.py:1047-1094 | the growing buffer with header, pointer and encryption equals the file's definition |
| CfgFiles.FileRoundTrip | firmware/cfgfmt.py:1281-1311 | every written file reads back under its keys to the header record, the selected records and, for a base file, the pointer; the only exception is an encrypted file that begins like a text profile |
| CfgFiles.TextMarkerIff | firmware/cfgfmt.py:1281-1287 | which files those are: none in the clear, weak ones under keys whose first four bytes of stream turn the markers into each other, strong ones under nonces that begin with four bytes fixed by key and text |
| CfgFiles.TextMarkerHappens | firmware/cfgfmt.py:1082-1093 | every strong file has, under its key, a nonce with which it does not read back |
| CfgFiles.HeaderReads | firmware/cfgfmt.py:975-984 | the header record reads back to the payload's length and to the checksum of its protection |
| CfgFiles.WrappedOpens | firmware/cfgfmt.py:928-939 | the wrapped tag's tail decrypts to the value's checksum and the value |
| CfgFiles.WholeTakesAll | firmware/cfgfmt.py:949-972 | an unsplit file takes every entry in order, without the sensitive ones when they are omitted |
| CfgFiles.SplitPartitions | firmware/cfgfmt.py:950-967 | base and extended files take complementary stable subsequences of the unsplit list |
| CfgFiles.SplitAddsUp | firmware/cfgfmt.py:942-972 | both parts build if and only if the whole does, and their lengths add up |
| Tftp.Blockize | telephony/tftp_profile.py:46-52 | the slicing loop equals the division into chunks |
| Tftp.StreamCarries | telephony/tftp_profile.py:46-52 | the blocks on the wire join to the payload and only the last is empty |
| Tftp.SendPicks | telephony/tftp_profile.py:208-222 | the sending rule picks the stream's blocks by number and flags exactly the last |
| Tftp.RequestIff | telephony/tftp_profile.py:55-71 | a datagram is taken as a read request if and only if it has bounded length and asks in octet mode for a nonempty name without separators and double dots |
| Tftp.TftpServer.HandlingRrq | telephony/tftp_profile.py:146-181 | a read request's effect: rejection, abandonment, snapshot and first block |
| Tftp.TftpServer.Running | telephony/tftp_profile.py:236-267 | the loop over events equals the run function |
| Tftp.EveryRun | telephony/tftp_profile.py:126-267 | over every event sequence the outputs follow the protocol automaton: DATA n carries block n, acknowledgements come in order from the peer, at most the allowed resends lie between them, and the fields stand for the phase |
| Tftp.EventShows | telephony/tftp_profile.py:126-267 | in every run every event shows exactly what the phase of the outputs so far calls for: a late look resends the pending block or gives up, a wrong acknowledgement resends, the right one brings the next block, the completion or the crash, a request for a served file starts it with block 1 |
| Tftp.CompletesDeliver | telephony/tftp_profile.py:200-206 | every completion in every run comes after acknowledgements 1 to n, when the blocks sent since the request are the whole payload of the file asked for and the last is empty |
| Tftp.CountersTell | telephony/tftp_profile.py:208-267 | in every run the returned requests, errors and bytes are the accepted requests, the rejections and timeouts, and the payload bytes sent |
| Tftp.CrashIff | telephony/tftp_profile.py:80-85 | some run raises in the block-number check if and only if a file that a read request can name takes more blocks than 16 bits number |
| Tftp.StreamLength | telephony/tftp_profile.py:46-52 | a payload takes one block for each started 512 bytes and the empty one, so the limit is 33553408 bytes |
| Tftp.RequestableIff | telephony/tftp_profile.py:55-71 | which file names some read request can ask for |
| FirmwareBlocks.MakeBlockStore | firmware/sata186us.py:309-329 | a store is made exactly for checked images, with the padded payload and one sum per block |
| FirmwareBlocks.CorruptionDetected | firmware/sata186us.py:255-266 | a checked image with any one summed byte changed is refused as corrupted |
| FirmwareBlocks.HelloAnnounces | firmware/sata186us.py:332-334 | the hello is valid and announces the exact length and the block size |
| FirmwareBlocks.ResponseCarriesUrl | firmware/sata186us.py:555-561 | a selection reply exists if and only if the URL fits, and carries it padded under a valid checksum |
| FirmwareBlocks.RequestRoundTrip | firmware/sata186us.py:564-576 | the server reads back the block index that the client asks for |
| FirmwareBlocks.BlockReply | firmware/sata186us.py:337-343 | a block reply names its block, carries it whole and has a valid checksum |
| FirmwareBlocks.BlocksRestore | firmware/ata_upgrade_client.py:110-120 | the replies cut to the announced length join to the exact payload, and there are as many as whole or part kibibytes |
| FirmwareService.SelectionRoundTrip | firmware/sata186us.py:430-481 | a built selection request is taken if and only if its text is well formed, and then selects its platform and type |
| FirmwareService.KboxIff | firmware/sata186us.py:430-481 | the packets taken as selections are exactly those around a well-formed text, with two bytes that nobody reads and anything behind |
| FirmwareService.Server.Serve | firmware/sata186us.py:632-709 | the loop over packets equals the run function |
| FirmwareService.EveryRun | firmware/sata186us.py:579-709 | at every loop head requests equal responses plus invalid ones, response bytes are 144, 12 and 1032 per reply, and the selection is the latest well-formed one's match |
| FirmwareService.EveryAnswer | firmware/sata186us.py:632-709 | every packet is answered as the latest selection calls for: a selection with the URL or `none`, a hello with the length, a request for a block with that block's bytes, nothing else with anything |
| FirmwareService.RaisesIff | firmware/sata186us.py:664-694 | a packet raises an error if and only if a due answer cannot be given |
| FirmwareService.SessionDelivers | firmware/ata_upgrade_client.py:90-120 | a client that selects the image and asks for every block puts together the exact payload, and the server's result is complete |
| FirmwareService.DataRepliesAreSelected | firmware/sata186us.py:676-694 | no data reply goes out unless the latest well-formed selection matched platform and type |
| FirmwareService.CompleteIff | firmware/sata186us.py:601-603 | the result is complete if and only if every block was sent at least once |

## Left out

- File reading, private publication, permissions, symbolic-link checks, argument parsing, JSON and console output: input and output around the modelled code.
- DEFLATE, CRC-32 and SHA-256 themselves: replaced by the codec laws, any function and data equality.
- The manifest's JSON typing: a manifest is a value of the right types, so the type checks of `_require_int` are not modelled.
- Sockets, clocks and threads: they are sequences of events. Operating-system errors of a socket are not modelled in the TFTP server; in the firmware server a failed safety check or a short send raises.
- MIPS-X arithmetic words and memory folding: functions of the machine that the interpreter runs on, so nothing is claimed about register widths. Not-taken squashing branches run their slots in the interpreter although the summary says `taken_only`; the model follows the interpreter.
- `collect_xrefs` of firmware/mipsx_dasm.py: a second summary of the same shape as the modelled one. The mnemonics of `decode` are not modelled.
- Profile text parsing, value encoding, the hex form of keys and `text_to_files`' choice of names and of splitting: the writer starts from a parsed profile and a chosen part. The decoder ignores the header checksum, so no check of it is claimed.
- RFC 1350's rule that a short block ends a transfer: the server follows a short block with an empty one, and the model follows the server.
- G.711, RTP, IAX2, SIP harnesses, DHCP, reboot orchestration, lookup tools and Ghidra scripts: no property of this depth.
- ZupComposed.ComposeFrame, EditedClear, ComposePayloads, UneditedFound and ZupOutcome.ComposeIs assume that the edited payloads do not overlap each other in the source; where they do, a later payload is parsed in what the earlier one left. ComposeEnds, ComposeTables, AllHeld, SpansKept and ValidateIff assume nothing.
- ZupComposed.UneditedFound: one way only, because a stream may be overwritten by another stream of the same data.
