# Verified models of the BTF and loader layer

Dafny models of the hard parts of the bundled libbpf and of the in-kernel process tracker, and proofs of what they
promise. `dafny verify dfyconfig.toml` checks everything.

- **Deduplication** (`BtfTypes`, `BtfEqual`, `CanonMap`, `GraphEquiv`, `DedupTable`, `RefPass`, `DedupOutput`,
  `Dedup`, `ForwardClash`, `BtfCompact`). The class `Dedup` runs the passes in place on an array of type records, the
  two id maps and the candidate table. The meaning of an id is its depth-indexed unfolding, a tree of records with the
  ids blanked out, in which a forward is read as what it declares. Two invariants carry all passes: the map is a
  forest whose links keep signatures, and every link is between types of one meaning, provided that all definitions of
  a name that is declared forward agree. The side-by-side graph walk is certified by a bisimulation when it accepts
  and by a path to a difference when it refuses. The compaction is also modelled on the bytes of the section and the
  index of offsets.
- **Byte order** (`ByteOrder`, `BtfFile`, `BtfEncode`). Parsing and saving of the raw form on byte arrays, against
  functions on byte sequences, with the round trips as theorems about those functions; and an encoder that writes the
  records field by field, from the layout in the Linux kernel document "BPF Type Format (BTF)", section 2, against
  which loading and saving are proved.
- **C dump** (`DumpOrder`, `DumpEmit`, `Dump`, `Padding`). The depth-first ordering and the emitter as a class over
  persistent states, with the printed declarations as a log that has each thing asked for, once and in time; and the
  bit-field padding against the layout rule of the System V AMD64 psABI, section 3.1.2.
- **Loader generator** (`LoaderCode`, `LoaderOps`, `LoaderTypes`, `LoaderParts`, `GenLoader`, `LoaderVm`,
  `LoaderRuns`, `LoaderSafety`, `LoaderFailure`, `LoaderCommands`, `LoaderHandover`, `LoaderLimits`). The class `Gen`
  appends instructions with hand-counted jumps; every call is tied to the exact code it appends, and every fragment is
  typed: a table says which registers hold numbers or pointers into the data blob. A small-step machine runs the
  result, and the theorems are about whole runs from the first instruction, for any answers of the kernel: what each
  command asks of it, what a failure closes, and what a success hands to the caller.
- **Hash map** (`HashBuckets`, `HashNodes`, `HashMap`). Chains of linked nodes, against an abstract multimap.
- **Line info** (`LineInfo`) and **process tree** (`ProcessTree`, `ProcessRuns`).

A method that changes state is proved against a function or predicate on values, and the theorems are lemmas about
those. Error codes are negative integers, as in the source.

Where code and its own comments differ, the code is followed. What the code does not keep is stated with a
concrete input and its exact condition (for the last two, a condition that suffices):

- the padding before the first bit-field behind an ordinary field can misplace it (`FirstBitfieldLandsIff`,
  `FirstBitfieldMisplaced`);
- the length check of the line-info split wraps around in 64 bits, and the last function is not checked at all
  (`SplitIsSoundIff`, `LastFunctionIgnored`, `LengthCheckWraps`, `LastFunctionUnchecked`);
- BTF with a header longer than the structure cannot be loaded in the other byte order (`RoundTripSwapped`,
  `LongHeaderRefused`);
- the opening jump of a loader without commands misses once the cleanup code has 0x8000 instructions (`OpeningLands`,
  `BareMisses`), cleanup code for more than 32 programs leaves the stack frame (`CleanupRuns`), and a failing loader
  closes only the descriptors it was told to count at the beginning (`FailureExits`, `UncountedStaysOpen`);
- a type that is only returned by prototypes is not marked as referenced by the dump (`MarkedIffReferenced`,
  `ReturnedIsNotMarked`);
- a reused pid can send an ancestor walk round in circles (`ForkWalkRepeatsIff`, `PidReuseRepeats`);
- of a struct that is declared forward and defined in two ways one definition can be lost (`DefinitionLost`); meaning is
  kept whenever all definitions of such names agree (`MeaningPreserved`);
- types of one meaning can stay apart, but only if there are twins: two types of one meaning in one graph
  (`SharedIffSame`, `RefusalOfSameMeaning`, `TwinsKeepApart`).

## Model

| member | source | states |
|---|---|---|
| Dedup.Dedup.Run | 3rdp/libbpf/src/btf.c:3214-3277 | The whole deduplication, in place. On success: every reference of the output is in range; every input type has a final id whose record has its name and kind (a forward may have become what it declares); every output id is the final id of some input type; no two output primitive or reference types are equal; of composites with equal input records at most one survives; every forward that an accepted walk met opposite a definition ends as a struct or union of the kind it declares, and a forward is left only where not exactly one composite of its name is left or that one is of the other kind; a value-less enum ends as one with values if any input enum of its name has them; if all definitions of every name that is declared forward mean the same, every input id unfolds, at every depth, exactly as its final id, forwards being read as what they declare; if forwards are uniform, of two surviving composites of one meaning one has twins in its graph; in a tidy section two input types share one output type if and only if they mean the same. -ELOOP only if some cycle consists of reference kinds alone, success only if none does; -EINVAL only if a type of a kind the graph walk does not support exists |
| Dedup.Dedup.FinishLine | 3rdp/libbpf/src/btf.c:3214-3277 | A compacted and remapped section, whatever the passes did in detail, has all that a finished run promises |
| Dedup.Dedup.MetFinal | 3rdp/libbpf/src/btf.c:4379-4440 | A forward that an accepted walk met opposite a definition has, in the output, a record of the kind it declares |
| Dedup.Dedup.EnumFinal | 3rdp/libbpf/src/btf.c:3944-3979 | A value-less enum has an output record with values if some input enum of its name has values |
| DedupOutput.MeaningPreserved | 3rdp/libbpf/src/btf.c:4838-4936 | For every section in which all definitions of a name that is declared forward mean the same, and so for every section without forwards: the n-level unfolding of every input id equals that of its remapped id in the output, for every n, forwards being read as what they declare on either side |
| DedupOutput.ForwardPreserved | 3rdp/libbpf/src/btf.c:4738-4904 | A forward that survives means in the output what it meant in the input: a definition of it has survived, or there never was one |
| GraphEquiv.ForwardPair | 3rdp/libbpf/src/btf.c:4247-4266 | The pairs the walk accepts without going on, a forward opposite a definition or another forward, have one meaning if all definitions of the name do |
| ForwardClash.DefinitionLost | 3rdp/libbpf/src/btf.c:4398-4439 | Why the definitions have to agree: a section in which struct S is declared forward and defined in two ways. The walk from the second struct A is accepted; once its pairs have resolved the forward to one S, the pair of the forward and the other S makes the merge put one S under the other, though their members differ |
| DedupOutput.MaximalSharing | 3rdp/libbpf/src/btf.c:4575-4679 | No two surviving INT, FLOAT, FWD, enum or reference-kind types have equal output records, whatever collided in the table |
| DedupOutput.CompositesDiffer | 3rdp/libbpf/src/btf.c:4464-4520 | Two structs or unions with equal input records never both survive |
| DedupOutput.SharedIffSame | 3rdp/libbpf/src/btf.c:3214-3277 | Completeness: in a section with uniform forwards, none of a name that structs and unions share, without variables and data sections, and in which no composite has twins in its graph, two types have one final id if and only if they mean the same, whatever their ids, cycles and hashes, and whether they are forwards or definitions |
| DedupOutput.SameRoots | 3rdp/libbpf/src/btf.c:4558-4697 | For that: types of one meaning have one representative, by induction over the order in which the reference pass finished them |
| DedupOutput.ForwardRoots | 3rdp/libbpf/src/btf.c:4738-4825 | And for forwards: one that survives is defined nowhere, and no other type of its meaning survives |
| DedupOutput.OnlyDefinition | 3rdp/libbpf/src/btf.c:4704-4825 | All definitions of a forward end at one representative, the only composite of its name, which is why the late pass finds it |
| Dedup.Dedup.constructor | 3rdp/libbpf/src/btf.c:3390-3445 | The initial map: void, variables and data sections stand for themselves, everything else is unprocessed, and the state the passes start from holds |
| CanonMap.Resolve | 3rdp/libbpf/src/btf.c:4027-4032 | Chasing the map ends, at a self-mapped or unmapped root, and the root has the signature of the type one started from |
| CanonMap.LinkKeepsInv | 3rdp/libbpf/src/btf.c:4017-4032 | When a slot of the map may be overwritten: forwards to earlier forwards or definitions, definitions only to self-mapped definitions of their signature; then the map stays a forest |
| CanonMap.LinkJoins | 3rdp/libbpf/src/btf.c:4386-4439 | Linking one root under another makes exactly their two trees one; every other root stays what it was |
| CanonMap.ResolveKeepsMeaning | 3rdp/libbpf/src/btf.c:4027-4032 | If every link is between types of one meaning, so is a type and its root |
| Dedup.Dedup.ResolveTypeId | 3rdp/libbpf/src/btf.c:4027-4032 | The chasing loop computes the root |
| Dedup.Dedup.ResolveFwdId | 3rdp/libbpf/src/btf.c:4038-4052 | A forward is replaced by its root if that is no forward; any other type stays |
| Dedup.Dedup.Link | 3rdp/libbpf/src/btf.c:4386-4439 | One store joins two distinct roots: everything below the first now resolves to the second, nothing else moves |
| BtfEqual.TableEqualIsEquality | 3rdp/libbpf/src/btf.c:3556-3818 | The exact check of each kind accepts two records if and only if they are equal, references included |
| BtfEqual.CompatEnumDecides | 3rdp/libbpf/src/btf.c:3661-3673 | Two enums are compatible if and only if they are equal or, one being value-less, have the same name |
| BtfEqual.ShallowChecksDecideShape | 3rdp/libbpf/src/btf.c:3701-3845 | The structural checks accept exactly the records that are equal up to their references |
| BtfEqual.ChecksImplyEqualHash | 3rdp/libbpf/src/btf.c:3556-3790 | Whenever a check can accept a pair, both records have the same hash |
| Dedup.Dedup.IsEquiv | 3rdp/libbpf/src/btf.c:4193-4236 | The side-by-side walk. A positive answer leaves a hypothetical map whose new pairs have all been checked down to their references; any other answer is refuted by a pair of types both sides reach along the same reference positions. From a pair of one meaning only such pairs are recorded. The set slots of the map are listed without repeats, and the walk ends because their number grows |
| Dedup.Dedup.CompareRecords | 3rdp/libbpf/src/btf.c:4238-4350 | One recorded pair: certified, or refuted by its own records or by a pair of its references |
| Dedup.Dedup.IsEquivRefs | 3rdp/libbpf/src/btf.c:4290-4345 | All references in the walk order: all related, or one of them refuted |
| GraphEquiv.HypotPairSame | 3rdp/libbpf/src/btf.c:4193-4351 | The pairs of a finished walk are a bisimulation up to merged types, forwards and identical arrays and structs, so each pair has one meaning |
| GraphEquiv.WalkCertifies | 3rdp/libbpf/src/btf.c:4193-4351 | A successful walk from scratch: every recorded pair has comparable records and, if all definitions of a name that is declared forward agree, one meaning |
| GraphEquiv.IdenticalSameMeaning | 3rdp/libbpf/src/btf.c:4061-4098 | Arrays and structs accepted as identical, member by member, have one meaning |
| GraphEquiv.RefusalOfSameMeaning | 3rdp/libbpf/src/btf.c:4212-4236 | If forwards are uniform, a walk from two types of one meaning refuses only if the graph of the candidate has twins: two distinct types of one meaning, both reached by the walk, not recognized as identical and competing for one canonical type of that meaning |
| GraphEquiv.ForwardsCompare | 3rdp/libbpf/src/btf.c:4247-4266 | Types of one meaning of which one is a forward are never told apart by their records, if forwards are uniform |
| GraphEquiv.GoodChild | 3rdp/libbpf/src/btf.c:4290-4345 | From a pair of one meaning the walk goes on to pairs of one meaning, the candidate side staying in the graph it started from |
| GraphEquiv.ApartAdded | 3rdp/libbpf/src/btf.c:4483-4532 | A new survivor that has no twins in its graph and finds no survivor of its meaning leaves it true that of two surviving composites of one meaning one has twins |
| GraphEquiv.TwinsKeepApart | 3rdp/libbpf/src/btf.c:4212-4236 | For instance: struct A with two members of struct B by value, the second file with two copies of B behind it. The two structs A mean the same, and no finished walk pairs them |
| GraphEquiv.FailureMeansUnwalkable | 3rdp/libbpf/src/btf.c:4346-4348 | The walk fails only at a type of an unsupported kind |
| GraphEquiv.EqualRecordsAccepted | 3rdp/libbpf/src/btf.c:4193-4351 | Types with equal records are never refused |
| GraphEquiv.MergeIsLegal | 3rdp/libbpf/src/btf.c:4379-4440 | The roots of an accepted pair may be linked in the direction the merge chooses: signatures are kept and no definition comes to point at a forward |
| Dedup.Dedup.HypotMapAdd | 3rdp/libbpf/src/btf.c:3331-3346 | One more set slot, at the end of the list |
| Dedup.Dedup.ClearHypotMap | 3rdp/libbpf/src/btf.c:3348-3356 | Visiting the listed slots restores the all-unprocessed map |
| Dedup.Dedup.MergeHypotMap | 3rdp/libbpf/src/btf.c:4379-4440 | Only forwards and unmapped composites change, each to a mapped type of its signature; of every recorded pair with exactly one forward both sides then end at a definition, and what ended at one still does; the candidate the walk started from ends up under its canonical counterpart |
| Dedup.Dedup.MergePair | 3rdp/libbpf/src/btf.c:4386-4439 | One recorded pair: if exactly one side is a forward, its tree joins that of the definition |
| Dedup.Dedup.MergeRoots | 3rdp/libbpf/src/btf.c:4398-4439 | Two roots: everything below the forward now ends at the definition, whichever side the forward is on; an unmapped composite goes under its canonical counterpart; nothing that ended at a definition stops doing so |
| Dedup.Dedup.PrimTypes | 3rdp/libbpf/src/btf.c:4002-4012 | Every primitive type gets a representative, and a value-less enum ends at one with values if some enum of its name has them, whichever came first; fails exactly if a type of no known kind exists |
| Dedup.Dedup.FindEnum | 3rdp/libbpf/src/btf.c:3944-3979 | A filed enum equal to this one, or compatible with it if it is value-less; if there is none, all filed value-less enums of its name are redirected to it; nothing else but such enums changes |
| DedupTable.EnumSettledNext | 3rdp/libbpf/src/btf.c:3944-3979 | One more enum keeps it true that a value-less enum ends at one with values if there is one of its name, though the map keeps chains through enums redirected earlier |
| Dedup.Dedup.FindEqual | 3rdp/libbpf/src/btf.c:3926-3941 | The filed equal record if there is one, else the type itself and none is filed |
| Dedup.Dedup.StructTypes | 3rdp/libbpf/src/btf.c:4522-4532 | Every struct and union gets a representative, the table stays canonical; every forward that any of the accepted walks met opposite a definition stays resolved; if forwards are uniform, of two composites of one meaning that both stay their own representatives one has twins in its graph; fails only on an unsupported kind |
| Dedup.Dedup.FindStruct | 3rdp/libbpf/src/btf.c:4483-4516 | A canonical composite the walk has accepted, already recorded as the representative, with the forwards of that walk resolved; or the type itself, and then no filed record equals it and, with uniform forwards and no twins in its graph, no survivor means what it does |
| Dedup.Dedup.TryStruct | 3rdp/libbpf/src/btf.c:4497-4508 | One candidate: accepted and merged, all forwards of its walk resolved, or refuted and the map untouched; equal records are never refused, and types of one meaning only if there are twins |
| Dedup.Dedup.FillUniqueNames | 3rdp/libbpf/src/btf.c:4704-4736 | The names of canonical composites, with 0 exactly for the names several of them share |
| Dedup.Dedup.ResolveFwds | 3rdp/libbpf/src/btf.c:4738-4825 | A remaining forward is linked to the only canonical composite of its name, if there is exactly one and its kind is the declared one; no other slot changes |
| DedupTable.ResolvedSettle | 3rdp/libbpf/src/btf.c:4738-4825 | Afterwards no forward is left that has exactly one composite of its name left, of the kind it declares |
| Dedup.Dedup.RefTypes | 3rdp/libbpf/src/btf.c:4684-4697 | -ELOOP if and only if a cycle of reference kinds exists; otherwise every id is mapped and every reference of a reference type is rewritten to a root |
| Dedup.Dedup.RefType | 3rdp/libbpf/src/btf.c:4558-4682 | One visit: the representative of the type, with all it refers to finished; on failure a cycle of reference kinds |
| Dedup.Dedup.RefChildren | 3rdp/libbpf/src/btf.c:4575-4666 | All references of the type in progress are rewritten in place to the roots of what they named |
| RefPass.LoopFound | 3rdp/libbpf/src/btf.c:4563-4566 | Meeting a type in progress closes a cycle of reference kinds |
| RefPass.FinishedMeansAcyclic | 3rdp/libbpf/src/btf.c:4684-4697 | When every reference type has been finished, the finishing order shows that no such cycle exists |
| RefPass.EqualResolvedSame | 3rdp/libbpf/src/btf.c:4575-4679 | Two finished reference types with equal rewritten records have one meaning |
| Dedup.Dedup.CompactTypes | 3rdp/libbpf/src/btf.c:4838-4884 | Record by record: survivors are copied down in their order and numbered densely; every one arrives unchanged, though the copy is in place |
| BtfCompact.Section.CompactTypes | 3rdp/libbpf/src/btf.c:4838-4884 | Byte by byte, over one buffer and one index: afterwards the section is the survivors' bytes one behind the other, the records tile it, the index holds exactly where they start, the type length and the string offset are its length, and the new ids are dense and in order |
| BtfCompact.Section.TakeRecord | 3rdp/libbpf/src/btf.c:4859-4870 | One survivor: read at its old offset, moved down, its offset written over the index, its new id recorded; afterwards the buffer starts with the survivors so far and every record not yet read still has its bytes |
| BtfCompact.Section.MoveDown | 3rdp/libbpf/src/btf.c:4865 | Moving bytes down, perhaps over themselves, leaves them as they were and all others alone |
| BtfCompact.WriteBehindRead | 3rdp/libbpf/src/btf.c:4857-4870 | The write position never passes the offset of the record read next |
| BtfCompact.NextIntact | 3rdp/libbpf/src/btf.c:4857-4870 | The record read next still has its bytes, and so its length |
| BtfCompact.MoveStep | 3rdp/libbpf/src/btf.c:4857-4870 | Moving it down destroys none of the records still to be read, though old and new bytes may overlap |
| BtfCompact.SurvivorsTile | 3rdp/libbpf/src/btf.c:4851-4884 | The survivors tile the section they make and their starts are its index |
| BtfCompact.RecordMoved | 3rdp/libbpf/src/btf.c:4851-4884 | Under its new id a survivor has, byte for byte, the record it had under its old one |
| BtfCompact.CopiedAsRecords | 3rdp/libbpf/src/btf.c:4851-4884 | Whatever bytes are taken to mean, the byte-level result decodes to what the record-level copy of `Dedup.CompactTypes` leaves |
| DedupOutput.CountHits | 3rdp/libbpf/src/btf.c:4851-4870 | Every dense id belongs to a survivor |
| DedupOutput.NewIdInRange | 3rdp/libbpf/src/btf.c:4892-4904 | Remapping cannot fail and lands on the copy of the reference's root |
| DedupOutput.OutputClosed | 3rdp/libbpf/src/btf.c:4892-4936 | The output section is closed: every reference is an output id |
| Dedup.Dedup.RemapTypes | 3rdp/libbpf/src/btf.c:4916-4936 | Every reference of every output record is rewritten to the final id of what it named; never fails |
| Dedup.Dedup.CompactAndRemap | 3rdp/libbpf/src/btf.c:4838-4936 | The last two passes, from resolved references to the finished section |
| GenLoader.Gen.Emit | 3rdp/libbpf/src/gen_loader.c:50-102 | Exactly this instruction is appended; an error sticks and freezes the buffers |
| GenLoader.Gen.AddData | 3rdp/libbpf/src/gen_loader.c:73-94 | The blob grows by whole words; the old end is returned |
| GenLoader.Gen.EmitCheckErr | 3rdp/libbpf/src/gen_loader.c:282-295 | The error branch to the cleanup label; success only if its distance fits the offset field, and whenever it does and there is room |
| GenLoader.Gen.EmitClose | 3rdp/libbpf/src/gen_loader.c:344-354 | The close sequence, with its jump over the call and the logging |
| GenLoader.Gen.Init | 3rdp/libbpf/src/gen_loader.c:113-154 | The opening jump is given the length of the cleanup code that follows it; the buffers hold a sound and typed loader |
| GenLoader.Gen.LoadBtf | 3rdp/libbpf/src/gen_loader.c:417-446 | BTF_LOAD, its error branch, and the descriptor kept in its stack slot |
| GenLoader.Gen.MapCreate | 3rdp/libbpf/src/gen_loader.c:448-524 | MAP_CREATE with its relocations and overrides, its error branch, and the descriptor kept in the stack or its map slot; maps out of order are refused |
| GenLoader.Gen.MapUpdateElem | 3rdp/libbpf/src/gen_loader.c:1034-1079 | The initial value, overridable by the caller through hand-counted jumps, and a checked update |
| GenLoader.Gen.PopulateOuterMap | 3rdp/libbpf/src/gen_loader.c:1081-1106 | A checked update of one outer slot |
| GenLoader.Gen.MapFreeze | 3rdp/libbpf/src/gen_loader.c:1108-1123 | A checked freeze |
| GenLoader.Gen.EmitFindAttachTarget | 3rdp/libbpf/src/gen_loader.c:540-553 | A checked lookup of the attach target |
| GenLoader.Gen.GetKsymDesc | 3rdp/libbpf/src/gen_loader.c:584-611 | The descriptor of the symbol: the only one there is, with one more use, or a new one if there is none |
| LoaderParts.UsedKeepsDistinct | 3rdp/libbpf/src/gen_loader.c:584-611 | No two descriptors ever stand for one symbol, and a later use is told from the first |
| GenLoader.Gen.AddKfuncBtfFd | 3rdp/libbpf/src/gen_loader.c:188-197 | A slot of fd_array: a reserved one behind the map slots while there are any, then one in new data |
| GenLoader.Gen.BindKfunc | 3rdp/libbpf/src/gen_loader.c:675-733 | The first use of a kernel function: looked up, and bound to a slot no other function and no map has |
| LoaderParts.SlotsAdded | 3rdp/libbpf/src/gen_loader.c:188-197 | A new function's slot differs from all others and from the map slots |
| GenLoader.Gen.EmitReloKfunc | 3rdp/libbpf/src/gen_loader.c:664-733 | First uses are bound, later ones copy the first; the fragment is the specified one |
| GenLoader.Gen.EmitReloTypeless | 3rdp/libbpf/src/gen_loader.c:754-785 | As above for a variable without type |
| GenLoader.Gen.EmitReloKsym | 3rdp/libbpf/src/gen_loader.c:801-849 | As above for a typed variable, with its three hand-counted jumps |
| GenLoader.Gen.EmitRelos | 3rdp/libbpf/src/gen_loader.c:885-891 | All recorded relocations, in order |
| LoaderParts.RelosSound | 3rdp/libbpf/src/gen_loader.c:867-891 | Whatever relocations were recorded, their code is sound behind any sound loader |
| GenLoader.Gen.CleanupRelos | 3rdp/libbpf/src/gen_loader.c:902-932 | The typed variables' module descriptors are closed, symbols and relocations forgotten and their slots freed |
| GenLoader.Gen.ProgLoad | 3rdp/libbpf/src/gen_loader.c:934-1032 | PROG_LOAD with relocations and attach target, its error branch, and the descriptor kept in the program's stack slot |
| LoaderParts.PartsApart | 3rdp/libbpf/src/gen_loader.c:946-975 | The license, instructions, function and line records, relocations and attributes of one PROG_LOAD lie one behind the other, each aligned, none overlapping |
| GenLoader.Gen.Finish | 3rdp/libbpf/src/gen_loader.c:370-406 | A count mismatch is refused; otherwise every descriptor is moved to the caller and the program ended, and given room this succeeds. Zero means a complete program that is typed for the slots it uses, whose only exits are in the cleanup code and at its end, and which ends with what `LoaderHandover` runs |
| LoaderParts.LoaderGrows | 3rdp/libbpf/src/gen_loader.c:96-108 | A loader with a sound fragment behind it is a loader |
| LoaderParts.Finished | 3rdp/libbpf/src/gen_loader.c:370-406 | A loader, the final moves and a normal exit are a complete program |
| LoaderCode.FragmentsJoin | 3rdp/libbpf/src/gen_loader.c:96-108 | Sound fragments concatenate to a sound fragment |
| LoaderCode.CleanupLengthExact | 3rdp/libbpf/src/gen_loader.c:130-138 | The hand-computed length in the opening jump is the length of the cleanup code, with and without logging, for any counts |
| LoaderCode.BranchesLand | 3rdp/libbpf/src/gen_loader.c:282-295 | In a complete program every error branch goes exactly to the cleanup label, and every other one behind the opening forward to an instruction, never to the second slot of a 64-bit load |
| LoaderCode.OpeningLands | 3rdp/libbpf/src/gen_loader.c:113-138 | The opening jump lands just past the cleanup code if and only if that length fits the 16-bit offset |
| LoaderLimits.BareIsComplete | 3rdp/libbpf/src/gen_loader.c:113-154 | A program without commands is complete whatever it is told to clean up, so the opening jump of a complete program can miss: if and only if the length does not fit |
| LoaderLimits.BareMisses | 3rdp/libbpf/src/gen_loader.c:113-138 | With 5461 maps the jump leads to before the program |
| LoaderFailure.CheckMeansJumpable | 3rdp/libbpf/src/gen_loader.c:282-295 | A complete program with at least one command has an opening jump that fits, because its error branch fits |
| LoaderTypes.TypedJoin | 3rdp/libbpf/src/gen_loader.c:96-108 | Typed fragments concatenate: code that uses only pointers as addresses, leaves R6 and R10 alone, and writes a descriptor slot only with four bytes of a result found not negative |
| LoaderTypes.CheckedTyped | 3rdp/libbpf/src/gen_loader.c:282-295 | A command, its error branch and what records its result are typed; behind the branch the result is known not to be negative |
| LoaderParts.CheckedFits | 3rdp/libbpf/src/gen_loader.c:417-524 | A checked command behind any loader makes a sound and typed loader again |
| LoaderParts.RelosTyped | 3rdp/libbpf/src/gen_loader.c:867-891 | Whatever relocations were recorded, their code is typed |
| LoaderSafety.RunLands | 3rdp/libbpf/src/gen_loader.c:113-406 | In every run of a complete program control stays at instructions of the program |
| LoaderSafety.OpeningRuns | 3rdp/libbpf/src/gen_loader.c:120-138 | The opening keeps the context in R6, clears the stack slots and continues just past the cleanup code |
| LoaderFailure.StepStays | 3rdp/libbpf/src/gen_loader.c:113-406 | One step of a typed program, whatever the kernel answers: it is not stuck, and R6, R10, the kinds of the registers and the use of the slots stay as typed |
| LoaderFailure.RunNeverStuck | 3rdp/libbpf/src/gen_loader.c:113-406 | In every run from the start no step is stuck, and every state behind the opening is as typed: the context in R6, the frame in R10, nothing but descriptor slots in the frame |
| LoaderFailure.RunExits | 3rdp/libbpf/src/gen_loader.c:113-406 | Every run from the start reaches an exit |
| LoaderFailure.RunRecords | 3rdp/libbpf/src/gen_loader.c:417-524 | In every run from the start a step leaves all descriptor slots alone, or stores into one of them the low word of a result that is not negative |
| LoaderFailure.FailureExits | 3rdp/libbpf/src/gen_loader.c:139-153 | In every run from the start, at any error branch with a negative result: the run goes on to close exactly the descriptors in the slots counted at the beginning and exits with the result; if no more programs were loaded and no more maps created than that, these are all the descriptors any slot holds |
| LoaderLimits.GenerateUncounted | 3rdp/libbpf/src/gen_loader.c:113-406 | Told of no map, the generator takes one creation, one freeze and a finish with one map without an error |
| LoaderLimits.UncountedStaysOpen | 3rdp/libbpf/src/gen_loader.c:139-153 | In every run of that program in which creation succeeds and freezing fails, the descriptor stands in its slot at the error branch and the program exits without closing anything |
| LoaderVm.CleanupRuns | 3rdp/libbpf/src/gen_loader.c:139-153 | Whatever the kernel answers, the cleanup code closes every positive descriptor in the stack slots and then in the map slots, once each and nothing else, and returns R7, if it was told of at most 32 programs; told of more it leaves the stack frame |
| LoaderHandover.ProgMovesRun | 3rdp/libbpf/src/gen_loader.c:381-387 | Run on the machine, the moves put the descriptor in each program's stack slot into the caller's context at 24 + 16 * maps + 4 * i, and change nothing else there |
| LoaderHandover.MapMovesRun | 3rdp/libbpf/src/gen_loader.c:388-393 | The moves put entry i of the descriptor array into the context at 24 + 16 * i, and change nothing else there |
| LoaderHandover.FinaleRuns | 3rdp/libbpf/src/gen_loader.c:370-406 | From the end of the last command on: the BTF descriptor is closed if there is one and nothing else is, every map's and every program's descriptor arrives in the caller's context, no other field of it changes, and the program exits with zero |
| LoaderHandover.SuccessHandsOver | 3rdp/libbpf/src/gen_loader.c:370-406 | Whole runs: from the start, if no command fails, control comes to the end of the last command, and from there the program hands every descriptor over as above and exits with zero |
| LoaderHandover.ZeroIffNoneFails | 3rdp/libbpf/src/gen_loader.c:113-406 | A run that has exited has the result zero if and only if no error branch of it met a negative result |
| LoaderCommands.LoadBtfAsks | 3rdp/libbpf/src/gen_loader.c:417-446 | Run on the machine: the kernel is asked for command 18 with 28 bytes of attributes, in which the log settings are the caller's and the pointer is that of the BTF data |
| LoaderCommands.MapCreateAsks | 3rdp/libbpf/src/gen_loader.c:448-499 | The kernel is asked for command 0 with 72 bytes of attributes; the BTF and inner map descriptors come from their stack slots, and the caller's maximum replaces the default unless it is zero |
| LoaderCommands.MapCreateRecords | 3rdp/libbpf/src/gen_loader.c:504-523 | The descriptor goes to the slot of inner maps or to entry `idx` of the array, and a map of maps has the inner one closed |
| LoaderCommands.UpdateAsks | 3rdp/libbpf/src/gen_loader.c:1070-1077 | The kernel is asked for command 2 with the descriptor of that map and the addresses of that key and value |
| LoaderCommands.FreezeAsks | 3rdp/libbpf/src/gen_loader.c:1108-1123 | The kernel is asked for command 22 with the descriptor of that map |
| LoaderCommands.ProgHeadRuns | 3rdp/libbpf/src/gen_loader.c:977-1004 | The attributes get the addresses of license, instructions, function and line records, relocations and descriptor array, the caller's log settings and the BTF descriptor |
| LoaderCommands.ProgLoadAsks | 3rdp/libbpf/src/gen_loader.c:1016-1018 | The kernel is asked for command 5 with 140 bytes of those attributes |
| LoaderCommands.AttachBindRuns | 3rdp/libbpf/src/gen_loader.c:1005-1014 | The two halves of the result become the BTF id and the module descriptor to attach to |
| LoaderCommands.FindByNameAsks | 3rdp/libbpf/src/gen_loader.c:616-633 | A BTF type is looked up with the address of its name, its size, its kind and no flags |
| LoaderCommands.KallsymsAsks | 3rdp/libbpf/src/gen_loader.c:635-655 | A symbol is looked up with the address of its name, its size, no flags and the place for its address |
| LoaderCommands.KallsymsAnswers | 3rdp/libbpf/src/gen_loader.c:635-655 | Afterwards R9 holds the address found there and R7 the answer |
| LoaderCommands.KfuncCopyRuns | 3rdp/libbpf/src/gen_loader.c:675-683 | A later call of a kernel function gets the BTF id and the slot index of the first |
| LoaderCommands.TypelessCopyRuns | 3rdp/libbpf/src/gen_loader.c:754-765 | A later load gets both halves of the address in the first |
| LoaderCommands.KsymCopyRuns | 3rdp/libbpf/src/gen_loader.c:801-849 | A later load gets the module descriptor and the BTF id of the first, and no source register if that id is zero |
| LoaderCommands.KsymCloseRuns | 3rdp/libbpf/src/gen_loader.c:902-919 | Exactly the module descriptor kept for the symbol is closed, if it has one |
| LoaderRuns.KfuncBindRuns | 3rdp/libbpf/src/gen_loader.c:694-718 | Not found: a call of nothing. Found: the BTF id in the call, the module descriptor in the slot, and the slot's index unless the function is the kernel's own |
| LoaderRuns.TypelessBindRuns | 3rdp/libbpf/src/gen_loader.c:767-779 | The address looked up goes into both halves, also for an unknown symbol; any other failure goes to the cleanup code |
| LoaderRuns.KsymBindRuns | 3rdp/libbpf/src/gen_loader.c:818-840 | What each outcome of the lookup leaves in the two instructions of the load |
| LoaderRuns.MaxEntriesRuns | 3rdp/libbpf/src/gen_loader.c:238-250 | The caller's value replaces the default unless it is zero |
| LoaderRuns.InitialValueRuns | 3rdp/libbpf/src/gen_loader.c:1051-1071 | Without a caller's value control goes to the end; with one, to the right one of the two copying helpers with the right arguments |
| LoaderRuns.CopyEnds | 3rdp/libbpf/src/gen_loader.c:1055-1071 | From either helper call control goes to the end without the other |
| HashBuckets.HashBitsBelow | 3rdp/libbpf/src/hashmap.h:15-29 | The upper bits name a bucket of the table |
| HashBuckets.GrowthSplits | 3rdp/libbpf/src/hashmap.h:15-29 | One more bit sends bucket b to 2b or 2b + 1 only |
| HashMap.HashMap.LinkNode | 3rdp/libbpf/src/hashmap.c:24-29 | One node goes to the head of a chain |
| HashMap.HashMap.UnlinkNode | 3rdp/libbpf/src/hashmap.c:31-36 | One node is taken out behind its predecessor or at the head |
| HashNodes.PushKeeps | 3rdp/libbpf/src/hashmap.c:24-29 | Linking an absent node at a head keeps all chains well linked, no node in two places |
| HashNodes.UnlinkKeeps | 3rdp/libbpf/src/hashmap.c:31-36 | So does skipping a node, which is then in no chain |
| HashMap.HashMap.Grow | 3rdp/libbpf/src/hashmap.c:101-128 | The buckets double, every node is relinked, the multimap stays, each old chain is split over its two buckets in reverse order, and one more entry fits the load limit |
| HashMap.HashMap.MoveChain | 3rdp/libbpf/src/hashmap.c:115-120 | While one old chain is relinked, what is left of the old chains and the new chains share no node |
| HashMap.HashMap.FindEntry | 3rdp/libbpf/src/hashmap.c:130-152 | The first node with the key, and its predecessor; none if no node of the chain has it |
| HashMap.HashMap.Insert | 3rdp/libbpf/src/hashmap.c:154-204 | Every strategy does to the multimap, and answers, what it should; size and placement are kept; the buckets double if and only if a new entry would fill more than three quarters of them |
| HashBuckets.InsertKeepsMap | 3rdp/libbpf/src/hashmap.c:154-204 | Without APPEND the table is a partial map: ADD of a key it holds answers -EEXIST, UPDATE of one it does not -ENOENT; afterwards it holds under the key what was inserted, or what it held if the insertion was refused, and the other keys' entries are untouched |
| HashMap.HashMap.Find | 3rdp/libbpf/src/hashmap.c:206-218 | Found if and only if some entry has the key; the value is that of such an entry |
| HashMap.HashMap.Delete | 3rdp/libbpf/src/hashmap.c:220-240 | One entry with the key, if there is any, leaves the multimap |
| HashBuckets.DeleteKeepsMap | 3rdp/libbpf/src/hashmap.c:220-240 | In a partial map the key is gone and the others are untouched |
| HashMap.HashMap.KeyEntries | 3rdp/libbpf/src/hashmap.h:192-198 | Iterating over a key visits each of its entries as often as the multimap holds it |
| HashBuckets.LoadFits | 3rdp/libbpf/src/hashmap.c:95-99 | The growth condition in integer arithmetic holds exactly when one more entry would fill more than three quarters of the table |
| Dump.Dumper.DumpType | 3rdp/libbpf/src/btf_dump.c:277-297 | After any sequence of successful calls: no declaration is printed twice, every name a definition mentions, of structs, unions, typedefs, enums and forwards alike, has been declared before it, everything it needs complete has been defined before it. The call fails exactly for an id out of range or with -ELOOP, and then prints nothing; -ELOOP only if the search comes from the id to a struct that has to be complete inside itself, success only if it does not, and where prototypes stand behind pointers only, exactly then. What was asked for is then in the output: a named struct or union, a typedef other than `__builtin_va_list`, and an enum or forward that has a name or is not marked as referenced; and nothing has been printed that the id does not lead to |
| Dump.Dumper.BuildQueue | 3rdp/libbpf/src/btf_dump.c:279-290 | The queue of one call: everything needed that no earlier call has queued, all of it reached from the id |
| Dump.Dumper.Resize | 3rdp/libbpf/src/btf_dump.c:194-221 | The states for all types; fails exactly if a type of no known kind exists |
| Dump.Dumper.MarkReferenced | 3rdp/libbpf/src/btf_dump.c:311-375 | Exactly the types some type refers to are marked, but for those only returned by prototypes; fails exactly if a type of no known kind exists |
| DumpOrder.MarkedIffReferenced | 3rdp/libbpf/src/btf_dump.c:311-375 | A type is marked if and only if some type refers to it and not only as a prototype's result |
| DumpOrder.ReturnedIsNotMarked | 3rdp/libbpf/src/btf_dump.c:358-368 | An anonymous enum that a prototype returns: referred to and not marked |
| Dump.Dumper.OrderType | 3rdp/libbpf/src/btf_dump.c:469-614 | One step of the depth-first search: everything the type needs, and every enum and forward declaration it mentions, is ordered and queued, or a loop or an unknown kind is the reason for the failure; the queue only grows |
| Dump.Dumper.OrderComposite | 3rdp/libbpf/src/btf_dump.c:508-540 | A struct: its members first, then itself, if it has a name |
| Dump.Dumper.OrderTypedef | 3rdp/libbpf/src/btf_dump.c:557-577 | A typedef: queued unless reached through a pointer while its target may stay incomplete |
| Dump.Dumper.OrderProto | 3rdp/libbpf/src/btf_dump.c:584-604 | A prototype: the result, then the parameters |
| DumpOrder.NeededEarlier | 3rdp/libbpf/src/btf_dump.c:469-614 | Everything a queued type embeds, and every enum and forward declaration it mentions at any depth that is printed on its own, comes earlier in the queue |
| DumpOrder.QueuedOnce | 3rdp/libbpf/src/btf_dump.c:469-614 | No struct, union, enum or forward is queued twice |
| DumpOrder.QueuedNeedsNotItself | 3rdp/libbpf/src/btf_dump.c:477-490 | Nothing queued embeds itself |
| DumpOrder.NeededIsQueued | 3rdp/libbpf/src/btf_dump.c:508-540 | When the members of a struct have been ordered, all it embeds has been queued |
| DumpOrder.LeadsSettled | 3rdp/libbpf/src/btf_dump.c:544-556 | Whatever an ordered type leads to through pointers, arrays, modifiers, prototypes, typedefs and anonymous structs: if it is an enum or forward with a name, or one nothing refers to, it has been ordered |
| DumpOrder.FirstIsQueued | 3rdp/libbpf/src/btf_dump.c:469-614 | Once what a type refers to is ordered, everything that has to be printed before it has been queued |
| DumpOrder.SettledNoLoop | 3rdp/libbpf/src/btf_dump.c:469-614 | From what has been ordered no loop can be reached |
| DumpOrder.LoopMet | 3rdp/libbpf/src/btf_dump.c:483-493 | Meeting an unfinished type that has to be complete closes a loop |
| DumpOrder.ReadingsAgree | 3rdp/libbpf/src/btf_dump.c:469-614 | Where prototypes stand behind pointers only, counting what a prototype mentions as embedded or not finds the same loops |
| Dump.Dumper.EmitType | 3rdp/libbpf/src/btf_dump.c:685-831 | What must be declared before the type can be used in the definition in progress is printed, or at the top its own definition; the state of the printer stays sound |
| Dump.Dumper.EmitStruct | 3rdp/libbpf/src/btf_dump.c:779-800 | A struct: defined at the top, spelled out when anonymous, and declared forward anywhere else, once |
| Dump.Dumper.EmitTypedef | 3rdp/libbpf/src/btf_dump.c:760-778 | A typedef: what it names first, then itself, once |
| Dump.Dumper.EmitMembers | 3rdp/libbpf/src/btf_dump.c:779-800 | After its members have been dealt with, every member type is declared or defined as needed |
| DumpEmit.MentionedIsDeclared | 3rdp/libbpf/src/btf_dump.c:685-831 | When the members of a struct have been dealt with, every name its body mentions, at any depth, has been declared: structs, unions, typedefs, enums and forwards |
| DumpEmit.MentionedAreReady | 3rdp/libbpf/src/btf_dump.c:277-297 | When a queued type is printed in its turn, every enum and forward declaration it mentions has been printed |
| DumpEmit.DefIsScoped | 3rdp/libbpf/src/btf_dump.c:779-800 | So its definition may be printed now |
| Dump.Dumper.EmitQueue | 3rdp/libbpf/src/btf_dump.c:277-297 | Everything ever queued has been printed |
| DumpEmit.OrderedIsPrinted | 3rdp/libbpf/src/btf_dump.c:277-297 | After that, every definition the search has ordered is in the output |
| DumpEmit.AskedIsPrinted | 3rdp/libbpf/src/btf_dump.c:541-556 | What was asked for has been printed, kind by kind: struct, union, typedef, enum or forward |
| Padding.EmitBitPadding | 3rdp/libbpf/src/btf_dump.c:860-952 | The printed padding, laid out by the psABI rule, ends exactly at the end of the gap unless the gap is left to the compiler |
| Padding.FillPadding | 3rdp/libbpf/src/btf_dump.c:916-951 | Whole units from a boundary on, and one smaller pad, fill the gap exactly |
| Padding.ChooseUnit | 3rdp/libbpf/src/btf_dump.c:887-900 | The largest unit with a boundary inside the gap |
| Padding.PadEnds | 3rdp/libbpf/src/btf_dump.c:916-951 | One more pad ends where the printer takes it to end, even while the compiler is still before the boundary the printer has moved to |
| Padding.OrdinaryFieldLands | 3rdp/libbpf/src/btf_dump.c:860-952 | A naturally aligned ordinary field lands at its offset |
| Padding.BitfieldLands | 3rdp/libbpf/src/btf_dump.c:860-952 | A bit-field behind a bit-field starts at its offset |
| Padding.FirstBitfieldLandsIff | 3rdp/libbpf/src/btf_dump.c:902-914 | The first bit-field behind an ordinary field does so if and only if its gap is not left to the compiler or it does not fit right behind that field |
| Padding.FirstBitfieldMisplaced | 3rdp/libbpf/src/btf_dump.c:902-914 | A char and a 4-bit int at the next boundary: nothing is printed and the bit-field moves |
| LineInfo.ProgLinfo.DissectJitedFunc | 3rdp/libbpf/src/bpf_prog_linfo.c:22-86 | Succeeds if and only if the address table can be split into the given functions, and then holds that split and its counts |
| LineInfo.EachInOne | 3rdp/libbpf/src/bpf_prog_linfo.c:22-86 | Every record belongs to exactly one function |
| LineInfo.FunctionIncreases | 3rdp/libbpf/src/bpf_prog_linfo.c:60-79 | In every function but the last the addresses strictly increase |
| LineInfo.InsideFunction | 3rdp/libbpf/src/bpf_prog_linfo.c:60-79 | They lie inside the function's code, except exactly when the 64-bit length computation wraps around |
| LineInfo.SplitsAgree | 3rdp/libbpf/src/bpf_prog_linfo.c:22-86 | A table can be split in one way only |
| LineInfo.NoSplit | 3rdp/libbpf/src/bpf_prog_linfo.c:50-83 | Where the pass gives up no split exists |
| LineInfo.SplitIsSoundIff | 3rdp/libbpf/src/bpf_prog_linfo.c:22-86 | After a successful split all functions increase and lie inside their code if and only if the last one does and no other one escapes the length check by starting at zero and ending at the highest address |
| LineInfo.LastFunctionIgnored | 3rdp/libbpf/src/bpf_prog_linfo.c:50-86 | A table that agrees up to the first record of the last function is split the same, whatever stands behind it |
| LineInfo.LengthCheckWraps | 3rdp/libbpf/src/bpf_prog_linfo.c:60-79 | A first function that starts at zero and ends at the highest address is accepted with a length of one |
| LineInfo.LastFunctionUnchecked | 3rdp/libbpf/src/bpf_prog_linfo.c:50-86 | For instance, out of order |
| LineInfo.ProgLinfo.LfindAddrFunc | 3rdp/libbpf/src/bpf_prog_linfo.c:180-216 | The last of the records up to which all are at or below the address, not counting those skipped; none exactly if the first is above it or there is none |
| LineInfo.ProgLinfo.Lfind | 3rdp/libbpf/src/bpf_prog_linfo.c:218-246 | As above for instruction offsets over the whole program |
| LineInfo.LastBelowIsFloor | 3rdp/libbpf/src/bpf_prog_linfo.c:180-246 | In an increasing table that is the greatest record at or below the address |
| LineInfo.New | 3rdp/libbpf/src/bpf_prog_linfo.c:100-178 | No index exactly for an empty or too small record table or an addressed table that cannot be split |
| ProcessTree.RunKeepsInv | ebpf/audit.bpf.c:295-402 | After every admissible run of registrations, forks, execs and exits: whitelist and tree have the same keys, depths count hops modulo 256, and live parent links lead to older processes of one root |
| ProcessTree.StepKeepsInv | ebpf/audit.bpf.c:295-402 | Every single step keeps that |
| ProcessRuns.TrackedIffEntered | ebpf/audit.bpf.c:295-402 | After a run in which the maps had room a pid is tracked if and only if it has entered, by a registration, a fork by a tracked parent or an exec of a target name while untracked, and has not exited since |
| ProcessRuns.TrackedAsRecorded | ebpf/audit.bpf.c:295-388 | A tracked pid's entry in the tree is that of its last entry, and its name is that of its last fork, exec or registration |
| ProcessRuns.OthersKept | ebpf/audit.bpf.c:295-402 | A step changes what the maps hold of its own pid only |
| ProcessRuns.AdmissibleIsRoomy | ebpf/audit.bpf.c:295-402 | In every admissible run the maps have room |
| ProcessTree.ClimbNeverRepeats | ebpf/audit.bpf.c:107-145 | No ancestor walk repeats a pid |
| ProcessTree.PackedChainExact | ebpf/audit.bpf.c:107-145 | For a process whose ancestors are all tracked: its depth is its hop count modulo 256, the packed chain is the first min(hops + 1, 8) nodes of its parent path, and it ends at the root if and only if hops <= 7 |
| ProcessTree.PackedChainSound | ebpf/audit.bpf.c:107-145 | For any tracked process: the chain climbs live parent links without repetition, with the names the tree holds, and, if short, ends at the root or below an exited ancestor |
| ProcessTree.ForkKeepsKeysIff | ebpf/audit.bpf.c:295-344 | A fork keeps the keys of the two maps equal if and only if the whitelist has room |
| ProcessTree.ForkWalkRepeatsIff | ebpf/audit.bpf.c:295-344 | After the fork of an untracked pid by a tracked parent the walk from the child names no pid twice if and only if the parent's living ancestors do not end below that very pid, or it is the pid of their root |
| ProcessTree.PidReuseRepeats | ebpf/audit.bpf.c:295-344 | For instance, with the exited parent's pid reused for a grandchild the walk goes round |
| ProcessTree.Tracker.PackProcessChain | ebpf/audit.bpf.c:107-145 | The unrolled walk writes exactly the chain and its length, and nothing behind it |
| ProcessTree.Tracker.HandleFork | ebpf/audit.bpf.c:295-344 | If the parent is tracked, the child enters the tree under it with its name and depth, and the whitelist if that has room, and the event has the child's chain; else nothing changes. No other pid is touched |
| ProcessTree.Tracker.HandleExec | ebpf/audit.bpf.c:346-388 | A tracked process gets its new name and keeps its parent and depth; an untracked one of a target name becomes a root in both maps; else nothing changes. No other pid is touched |
| ProcessTree.Tracker.HandleExit | ebpf/audit.bpf.c:390-402 | A tracked process is in neither map afterwards; no other pid is touched |
| ProcessTree.Tracker.HandleSyscall | ebpf/audit.bpf.c:147-168 | A system call is reported, with its chain, if and only if the process is tracked |
| ProcessTree.Tracker.HandleRegister | ebpf/loader.c:193-252 | The process is in both maps, a root that is its own parent; no other pid is touched |
| ByteOrder.RoundTripNative | 3rdp/libbpf/src/btf.c:1426-1474 | Saving in host order and loading gives the same header, types, index and strings |
| ByteOrder.RoundTripSwapped | 3rdp/libbpf/src/btf.c:1426-1474 | So does saving in the other byte order, if and only if the header has the length of the structure; otherwise loading answers -ENOTSUP |
| ByteOrder.LongHeaderRefused | 3rdp/libbpf/src/btf.c:220-267 | A header of 28 bytes: it loads and saves in host order, and is refused with -ENOTSUP after saving in the other |
| ByteOrder.ParseSwapped | 3rdp/libbpf/src/btf.c:413-449 | Parsing the other byte order undoes the swap record by record: base first on the way in, rest first on the way out |
| ByteOrder.ParseNative | 3rdp/libbpf/src/btf.c:413-449 | In host order parsing succeeds exactly if the records tile the section, and changes nothing |
| ByteOrder.ParsedTiles | 3rdp/libbpf/src/btf.c:413-449 | The index parsing leaves behind tiles the section |
| ByteOrder.LoadedIsPacked | 3rdp/libbpf/src/btf.c:220-286 | Whatever loads with packed sections and a full header is a BTF the round trips are about |
| ByteOrder.SwapWordsTwice | 3rdp/libbpf/src/btf.c:329-411 | Swapping words twice changes nothing |
| ByteOrder.SwapHdrTwice | 3rdp/libbpf/src/btf.c:210-218 | So for the header, whose length word stays readable |
| ByteOrder.LoadsIff | 3rdp/libbpf/src/btf.c:220-286 | Loading succeeds if and only if the file starts with the magic in one of the two byte orders, the header (of exactly 24 bytes in the other order) describes sections that are ordered and inside the file, the types aligned, the strings sound, and the types parse; -ENOTSUP exactly for a longer header in the other order, else -EINVAL |
| BtfEncode.ItemsLength | 3rdp/libbpf/src/btf.c:290-327 | How many fields the items of each kind have, from the layout of the items field by field |
| BtfEncode.RestOfRecord | 3rdp/libbpf/src/btf.c:290-327 | For every record of a known kind: the size the reader computes from kind and count is the length of the encoding written field by field |
| BtfEncode.SectionTiles | 3rdp/libbpf/src/btf.c:413-449 | The reader splits an encoded section exactly at the prefix sums of the encoded lengths |
| BtfEncode.SectionTurned | 3rdp/libbpf/src/btf.c:329-411 | Swapping an encoded section gives the encoding with every 32-bit field reversed |
| BtfEncode.EncodedLoads | 3rdp/libbpf/src/btf.c:1026-1075 | For every section of records of known kinds, encoded in either byte order: loading succeeds, and gives the header and types in host order, the strings, and the prefix sums as index |
| BtfEncode.EncodedIndexed | 3rdp/libbpf/src/btf.c:413-449 | At the indexed offset of each type stands the encoding of its record |
| BtfEncode.EncodedSaves | 3rdp/libbpf/src/btf.c:1426-1474 | What was loaded from an encoding in either byte order is saved as the encoding in the order asked for |
| BtfFile.BswapTypeRest | 3rdp/libbpf/src/btf.c:336-411 | The trailing words of one record, as many as kind and count in host order say, which for an encoded record are its fields behind the first three; unknown kinds are refused |
| BtfFile.Btf.ParseHdr | 3rdp/libbpf/src/btf.c:220-267 | The header in host order, or the error each malformed header gets |
| BtfFile.Btf.ParseTypeSec | 3rdp/libbpf/src/btf.c:413-449 | The records in host order and their index, or -EINVAL if they do not tile the section |
| BtfFile.Btf.Parse | 3rdp/libbpf/src/btf.c:1026-1075 | Loading, as a function of the bytes |
| BtfFile.Btf.GetRawData | 3rdp/libbpf/src/btf.c:1426-1474 | Saving, as a function of the loaded BTF, in either byte order |

## Left out

Deduplication:
- Split BTF, `.BTF.ext`, the string set and the sanity checks; name offsets are taken as string ids already made unique.
- Allocation failure, everywhere.
- Structural meaning of sections in which a name that is declared forward is defined in two ways: there only signatures
  are claimed and which forwards end at a definition, because the code may then merge the two (`DefinitionLost`).
- DedupOutput.MeaningPreserved: one direction of that condition only; two definitions are not always merged, which
  depends on the order in which walks meet them. The size of a value-less enum is not part of its meaning.
- Dedup.Dedup.constructor: takes a ghost rank as witness that by-value embedding has no cycle; without it the
  comparison of identical structs does not end in the source either.
- Dedup.Dedup.Candidates: the table is a multiset walked in any order, so that nothing depends on the chain order.
- Dedup.Dedup.CompactTypes: moves whole records; `BtfCompact` does it on bytes, without the allocation that shrinks the
  index and without the total size kept beside the header.
- DedupOutput.SharedIffSame: one direction of the condition only; twins do not always keep types apart, which depends on
  the order in which the candidates of one hash are tried.

Byte order:
- A header shorter than 24 bytes set by hand, the cached raw data, and a big-endian host. The sections are kept as
  three buffers.

C dump:
- The text printed, names of duplicates, missing aliases and conflict suffixes; types added between calls.
- Dump.Dumper.constructor: takes a ghost rank as witness that every reference cycle goes through a struct or union, and
  needs a section with at least one type.
- Dump.Dumper.DumpType: for a prototype that is reached without a pointer, as a struct member cannot be, the search
  treats what it mentions as embedded the first time and not through a typedef already done; there the failing and the
  succeeding side are stated for the two readings. After a failed call nothing is claimed about later ones.
- Dump.Dumper.EmitQueue: does not say in which order independent types are printed.
- Typedefs may be queued twice; only printing is guarded.
- Padding of packed structs and at the end of a struct.

Loader generator:
- What the generator itself writes into the data blob, and the text and length of log messages; room is counted.
- Register-relative offsets are not truncated to 16 bits and sizes not to 32; jumps are truncated.
- LoaderFailure.FailureExits: for kernels that do not write the map slots on their own. Module descriptors of kernel
  functions and typed variables are in no slot the cleanup code reads, and are not covered by it.
- The machine keeps memory as whole fields at offsets, each a number; its 32-bit AND is only run on byte 1 of an
  instruction, little-endian. The stack is the frame of 136 bytes that the opening clears.
- LoaderHandover.SuccessHandsOver: for programs whose opening jump fits and whose slots are of at most 32 programs,
  as `OpeningLands` and `CleanupRuns` say; which answers of the kernel are good descriptors is not modelled.
- The limits of the kernel on program length and its verifier.

Hash map:
- Freeing, clearing, and iteration over the whole table; chain order beyond the reversal by growth.
- HashMap.HashMap.Find: does not say which value is returned after APPEND, because growth reverses chains.

Line info:
- Record contents other than the offset; the kernel-side checks of the raw record sizes beyond the smallest.

Process tree:
- The event ring and its timestamps, name prefixes, and concurrent handlers: each is one step.
- ProcessRuns.TrackedIffEntered: only for runs in which no map is full when a new pid enters.
- ProcessTree.RunKeepsInv: only for runs in which maps do not fill and an entering pid is neither tracked nor named by a
  live process; re-registration by the periodic scan is such an entry. `ForkKeepsKeysIff` and `ForkWalkRepeatsIff` say
  what happens otherwise.

Also not modelled, as wrappers and foreign interfaces: ELF reading, system calls, feature probes, netlink, typed data
dumping, macro headers, and the Python command line.
