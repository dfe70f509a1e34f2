# Verification of the binding comparison, graph audits and fuzzing oracles

Toucan's scripts decide whether two generated Rust bindings describe the same C interface, whether a
build uses the expected packages, and whether fuzzing inputs reach every configuration. This project
models the algorithms behind those decisions in Dafny and proves what their verdicts mean.

Run `dafny verify dfyconfig.toml` in this directory.

## What is modelled

**Comparing bindings** (`Shapes`, `BindingApi`, `Correspondence`, `RecordMatcher`, `RecordPairing`,
`Normalization`, `Isomorphism`, `NativeProbes`, `Verdict`, `Gate`). Record matching grows a partial bijection between
the nominal records of two inventories, first from shared names and API positions, then through
corresponding fields, and reports a clash instead of overwriting. `Correspondence` defines the relation
it ought to compute with no order of discovery: the least relation that contains the seeds and is closed
under corresponding fields. The worklist is an object with the original's `pairs`, `reverse` and
`conflicts`; every iteration over a set or a dictionary picks elements arbitrarily, so what is proved
holds for every order. The main results are:

- the matcher reports no conflict exactly when the relation is one-to-one, and then returns it;
- renaming through the pairing never merges two records, because shared names are paired first;
- the record comparison succeeds exactly when the pairing is a total bijection between equal records;
- the comparison of the native observations, rekeyed through the pairing, succeeds exactly when paired records
  have equal layouts and their fields equal offsets;
- the verdict holds exactly when some name-respecting isomorphism of the two interfaces exists that preserves
  native layouts and values, and shared names and positions reach every record, a statement that mentions
  neither the matcher nor the normalization;
- the gate files every difference exactly once, except that it raises on exactly the reports of runs that skip
  the native probes.

**Graph audits** (`PathSearch`, `ConsumerGraph`, `LockVersions`). The breadth-first search marks a package
visited only when a path to it leaves the queue; its result follows a shortest chain of normal
dependencies on compiled packages, and it gives up exactly when there is none. The consumer inventory is exactly the part of the package graph reachable without the
generator edge; it depends neither on package ids, nor on the order of the stack, nor on anything behind
that edge, nor on where the root and the copied `aws-lc-sys` come from. Two inventories are equal exactly when
their graphs agree in that sense. A compatible lock keeps every dependency path of the upstream lock.

**Fuzz seeds** (`FuzzSelectors`, `FuzzSeeds`). The Python side searches for padding that brings a byte sum
to a required residue and 256-block; the Rust side decodes the sum. Padding is proved to exist for every
source and up to 143 profiles (the runner admits 32), because padding sums cover a window longer than the
period by 30, and each seed decodes to the requested configuration. All 480 preprocessor configurations
and all 64 parser configurations are hit exactly once. Machine addition wraps at a parameter `word`;
inputs are bounded only so that 255 times the seed's length stays below it.

**Text formats** (`MakeDependencies`, `ProbePrinter`, `ProbeLockstep`, `ProbeGenerator`, `Texts`). The make-rule decoder reads back
whatever a compiler writes with its escapes, for all token sequences. The emitted C printer of 128-bit
integers is exact: its types are range-checked, so no intermediate result overflows (signed overflow is
undefined by section 6.5 paragraph 5 of ISO/IEC 9899:2011). The generator fills the C and the Rust
program side by side, each line with its own text, and raises in the loops that collect its metadata; both programs
are proved to print the same keys, no key repeats, and both outputs parse to the same keys.

**Retained graph** (`RetainedGraph`, `RetainedTypes`, `RetainedPaths`, `RetainedBodies`, `OriginRanges`). The
bit array, the byte counters, the body checks and the type worklist of the fuzzing oracle accept exactly the
graphs that satisfy a declarative partition and coverage statement. Paths through types never leave the
types the worklist accepts, a member path means the same however it is grouped, and a range of array elements
is accepted exactly when each of its elements is. The range loops of the preprocessing target compare
neighbours only and decide disjointness of all. A failed assertion is the result `false`; a counter overflow is
a failed assertion.

The contracts of the main operations are stated over their inputs by definitions of their own, not through the
functions that the operations call; lemmas connect the two.

JSON objects are read as datatypes: an object tagged `record` is `Shape.Record`, any other object a map,
an array a sequence. Sorted lists whose order is only canonical are multisets or sets.

## Model

| member | source | states |
|---|---|---|
| Shapes.RenameIffPairsAgree | scripts/compare_bindings.py:119-129 | Renaming one type yields another exactly when both have the same skeleton and every collected record pair agrees with the renaming |
| Shapes.PairedIffCorresponding | scripts/compare_bindings.py:119-129 | The collected pairs are exactly the records at one place of both types, when dictionaries above it have the same keys and lists the same length |
| BindingApi.FieldName | scripts/compare_bindings.py:132-137 | A name changes only by losing the suffix of a keyword that the other side has, and then always |
| BindingApi.KeywordsAre | scripts/compare_bindings.py:26-79 | The keywords are the strict and the reserved ones of every edition |
| BindingApi.ByName | scripts/compare_bindings.py:255-258 | The field table has exactly the field names as keys |
| BindingApi.LastFieldWins | scripts/compare_bindings.py:255-258 | Of fields with one name the table holds the last |
| BindingApi.Group | scripts/compare_bindings.py:148-154 | The group of a symbol has exactly its public Rust names as keys |
| BindingApi.CollectGroups | scripts/compare_bindings.py:140-155 | The nested loops raise exactly on an empty list or a repeated public name, and otherwise group every symbol |
| Correspondence.SeedIffSource | scripts/compare_bindings.py:219-249 | The seeds of the relation, records sharing a name or standing at one place of an alias or of exports that meet, are exactly the known pairs a run starts from |
| Correspondence.StepIffPositions | scripts/compare_bindings.py:250-261 | The steps of the relation, through the last fields with corresponding names, are exactly those a run takes |
| Correspondence.SeedCorresponds | scripts/compare_bindings.py:219-249 | Every known pair from shared names, aliases or exports is in the relation |
| Correspondence.StepCorresponds | scripts/compare_bindings.py:250-261 | The relation is closed under corresponding fields |
| Correspondence.CorrespondsIsLeast | scripts/compare_bindings.py:198-203 | Every set with the seeds and closed under field steps contains the relation |
| RecordMatcher.ClashLookup | scripts/compare_bindings.py:211 | The two dictionary lookups decide whether accepting a pair would break the bijection |
| RecordMatcher.AcceptKeeps | scripts/compare_bindings.py:216-217 | Accepting a pair that does not clash keeps the dictionaries mutual inverses and earlier conflicts conflicts |
| RecordMatcher.Matching.Add | scripts/compare_bindings.py:208-217 | Exact new state: accepts a known pair that does not clash, reports one that does once, changes no accepted entry, ignores unknown records |
| RecordMatcher.Matching.AddPositions | scripts/compare_bindings.py:226-228 | Every known pair in corresponding positions ends up accepted or reported |
| RecordMatcher.Matching.MatchSharedRecords | scripts/compare_bindings.py:219-220 | Every name on both sides is paired with itself |
| RecordMatcher.Matching.MatchExports | scripts/compare_bindings.py:229-249 | Every known pair implied by a shared linker symbol is accepted or reported |
| RecordMatcher.Matching.Close | scripts/compare_bindings.py:250-261 | Terminates, with every pair implied by fields of accepted pairs accepted or reported |
| RecordPairing.RecordPairs | scripts/compare_bindings.py:198-262 | Raises exactly on invalid export lists; otherwise records with a record name, Rust name or typedef in common are paired or reported, no conflict is reported exactly when the least relation is one-to-one, and then the pairing is that relation |
| RecordPairing.OutcomeDecidesOneToOne | scripts/compare_bindings.py:201-202 | Any outcome of matching is conflict-free exactly when the relation is one-to-one |
| RecordPairing.OrderIndependence | scripts/compare_bindings.py:198-262 | Two runs agree on whether there are conflicts and, without them, on the pairing |
| Normalization.RenamingLosesNoRecord | scripts/compare_bindings.py:283-286 | Distinct right records keep distinct names when renamed through the inverse pairing |
| Normalization.CanonicalizeFields | scripts/compare_bindings.py:289-296 | Unescapes exactly the fields whose bare keyword the counterpart has, and reports exactly these |
| Normalization.Normalize | scripts/compare_bindings.py:278-297 | The normalized inventory is the right one with every record renamed, no record lost, and keyword suffixes removed where the left record has the keyword |
| Isomorphism.FieldTablesAgree | scripts/compare_bindings.py:255-260 | Tables built from field lists that agree position by position agree name by name, duplicates included |
| Isomorphism.IsomorphismIsClosed | scripts/compare_bindings.py:255-261 | A record isomorphism is closed under corresponding fields |
| Isomorphism.IsomorphismContainsRelation | scripts/compare_bindings.py:201-203 | If any name-respecting isomorphism exists, it contains all the matcher can derive, so matching cannot conflict |
| Verdict.MatchesIffEqual | scripts/compare_bindings.py:97-116 | A map comparison matches exactly when the maps are equal; its count is the number of equal entries |
| Verdict.RecordShapesMatchIffIsomorphic | scripts/compare_bindings.py:503-507 | The record comparison matches exactly when the pairing is a bijection of all records that agree in kind, opacity, field order, names up to the keyword suffix, and shapes up to renaming |
| Verdict.StructureMatchesIffIsomorphic | scripts/compare_bindings.py:493-520 | All structural comparisons match exactly when the pairing is an isomorphism of functions, globals, constants, aliases, records and enums |
| Verdict.StructuralVerdict | scripts/compare_bindings.py:491-520 | No conflict and all structural comparisons match, exactly when a name-respecting isomorphism exists and every record is reached from shared names and positions |
| Verdict.StructureTellsDifferences | scripts/compare_bindings.py:97-110 | Each category lists exactly the entries of one side alone, by side, and the shared ones that differ up to the pairing |
| NativeProbes.ValidateEnumObservations | scripts/compare_bindings.py:330-345 | Accepts exactly observations whose variants, enums and enum constants agree with the inventory |
| NativeProbes.NormalizedProbe | scripts/compare_bindings.py:369-380 | Rekeys records and fields through the pairing and the field renames; raises exactly on a field key without a dot |
| NativeProbes.FieldIsRenamed | scripts/compare_bindings.py:373-378 | The renames reported by normalization send every field to the name it has in the normalized record |
| NativeProbes.ProbesMatchIffSameLayouts | scripts/compare_bindings.py:521-528 | Under a record isomorphism the rekeyed observations are equal exactly when paired records have equal sizes and alignments, fields at the same position equal offsets, and constants and enums equal values |
| Verdict.NativeVerdict | scripts/compare_bindings.py:521-528 | Under an isomorphism all native comparisons match exactly when layouts and values agree |
| Verdict.Compare | scripts/compare_bindings.py:471-579 | Raises exactly on invalid export lists or observations; the report records a finished match, each category's differences, exactly the records with excluded storage and their fields, unsupported constructs, and a verdict that is their conjunction |
| Verdict.EquivalentMeansSameInterface | scripts/compare_bindings.py:572-579 | Equivalence is reported exactly when a layout-preserving isomorphism exists, every record is anchored, no record that is not opaque has excluded fields, nothing is unsupported and the inputs are unchanged |
| Gate.Classify | scripts/verify_equivalence.py:218-339 | Raises exactly on reports without native comparisons; otherwise every entry of one side, by side, every differing entry and every record with excluded storage is filed exactly once, as accepted when there is a reason and as unexpected otherwise, with conflicts, unsupported constructs and changed inputs |
| Gate.OnlySkippedProbesAreRefused | scripts/verify_equivalence.py:223 | Of the reports of the comparison tool, exactly those of runs that skip the native probes cannot be classified; none of them is equivalent |
| Gate.CompareWithoutProbes | scripts/compare_bindings.py:427 | With the probes skipped, every two well-formed inventories yield a report that cannot be classified |
| Gate.EmptyIffEquivalent | scripts/verify_equivalence.py:646-649 | Classification succeeds with two empty lists exactly when the report is equivalent; when it succeeds, nothing is unexpected exactly when nothing blocks and every difference has a reason |
| PathSearch.PathMeetsQueue | scripts/verify_uv_tls.py:495-509 | Along any path from the root, packages are visited no later than their position or some queued path is at most as long |
| PathSearch.VisitKeepsFrontier | scripts/verify_uv_tls.py:504-509 | Visiting a package keeps the frontier property although packages are marked only when popped |
| PathSearch.Extend | scripts/verify_uv_tls.py:505-509 | The queued extensions are exactly the normal dependencies on compiled packages |
| PathSearch.ChainIsPath | scripts/verify_uv_tls.py:505-509 | A chain of normal dependencies on compiled packages is a path of the graph |
| PathSearch.PathIsChain | scripts/verify_uv_tls.py:505-509 | A path of the graph follows such a chain |
| PathSearch.Search | scripts/verify_uv_tls.py:495-513 | A found path follows a chain of normal dependencies on compiled packages from root to target and no chain is shorter; the failure branch means no such chain exists; the search terminates |
| ConsumerGraph.Visit | scripts/verify_aws_lc_consumer.py:132-160 | Accepts exactly sound dependencies; lists one edge and one target for every surviving dependency and counts the cut ones |
| ConsumerGraph.VisitProgresses | scripts/verify_aws_lc_consumer.py:110-160 | Visiting a package keeps selection, frontier, edges and cuts exact |
| ConsumerGraph.OneCutIffOneListed | scripts/verify_aws_lc_consumer.py:161-162 | One removed edge is listed exactly when one generator edge leaves the reachable packages |
| ConsumerGraph.UsefulKindsKeep | scripts/verify_aws_lc_consumer.py:133-139 | Exactly the development kinds are dropped, the others keep their multiplicities |
| ConsumerGraph.ReachableIffConsumed | scripts/verify_aws_lc_consumer.py:132-160 | The reachable packages are those at the end of chains of dependencies of some kind not for development, on active packages, other than the generator edge |
| ConsumerGraph.EdgesAreCounted | scripts/verify_aws_lc_consumer.py:150-159 | An edge is listed once for every dependency it stands for, with the kinds of that dependency but those for development |
| ConsumerGraph.AdmissibleIffConsumable | scripts/verify_aws_lc_consumer.py:110-162 | The conditions for success in terms of the metadata alone |
| ConsumerGraph.ConsumerDependencies | scripts/verify_aws_lc_consumer.py:89-168 | Succeeds exactly when consumed packages are complete and distinct and one generator edge is cut; lists exactly the consumed packages, each with its features and, unless copied, source and checksum, and one edge for every surviving dependency of each |
| ConsumerGraph.EdgesIgnoreOrder | scripts/verify_aws_lc_consumer.py:167 | The edges of a package do not depend on the order of its dependencies |
| ConsumerGraph.NonInterference | scripts/verify_aws_lc_consumer.py:123-175 | Two graphs that agree outside the generator edge, up to package ids and the sources and checksums of the root and `aws-lc-sys`, have equal inventories |
| ConsumerGraph.EqualIffAgree | scripts/verify_aws_lc_consumer.py:171-175 | Inventories of admissible graphs whose package names have no "@" are equal, with equal roots, exactly when some renaming of ids makes the graphs agree outside the generator |
| ConsumerGraph.InventoryIsUnique | scripts/verify_aws_lc_consumer.py:110-111 | The inventory does not depend on the order of the stack |
| LockVersions.LockPackages | scripts/verify_astral_builder.py:36-41 | Succeeds exactly when no name and version repeat, with every package under its identity |
| LockVersions.ResolvesIffMeans | scripts/verify_astral_builder.py:44-57 | A dependency resolves to the one package that its name, and its version if spelled, can mean, and to none if there are several |
| LockVersions.CheckLockVersions | scripts/verify_astral_builder.py:60-105 | Succeeds exactly when every package is kept from the same source with the same checksum, zstd-sys local without either, and means at least the dependencies it meant; lists exactly the packages with added dependencies, each with these |
| LockVersions.DependencyIsKept | scripts/verify_astral_builder.py:81-91 | A dependency of the upstream lock is one of the tested lock, however it is spelled |
| LockVersions.PathsAreKept | scripts/verify_astral_builder.py:60-105 | Every dependency path survives with the same names and versions |
| LockVersions.SpellingIsStable | scripts/verify_astral_builder.py:44-57 | A spelling with a meaning in both locks means the same package in both |
| FuzzSelectors.SelectorIsSum | fuzz/fuzz_targets/profiles.rs:17-19 | The wrapping fold is the true byte sum as long as that fits the machine word |
| FuzzSeeds.WindowHasHit | scripts/run_fuzz_campaign.py:72-81 | Any window of 256 sums per block and 30 more contains a sum in the required block with the required residue |
| FuzzSeeds.PaddingReaches | scripts/run_fuzz_campaign.py:75-78 | Padding sums fill the interval from 65 to 256 times the modes plus 94 without '*' or '/' |
| FuzzSeeds.PaddingExists | scripts/run_fuzz_campaign.py:74-81 | The search never fails |
| FuzzSeeds.FirstPaddingIsFirst | scripts/run_fuzz_campaign.py:74-81 | The search returns the earliest acceptable padding |
| FuzzSeeds.PaddingIsHarmless | scripts/run_fuzz_campaign.py:74-82 | Between prefix and suffix stand the spaces and one byte, neither '*' nor '/' |
| FuzzSeeds.ProfileSeedDecodes | scripts/run_fuzz_campaign.py:63-82 | A seed is the source, the prefix, at most 64 harmless padding bytes and the suffix, and selects the requested profile and mode |
| FuzzSeeds.ProfileSeedsDecode | scripts/run_fuzz_campaign.py:63-82 | Raises exactly unless there are two, four or eight modes; otherwise there is one seed for every mode and profile, which selects the profile and a mode that agrees, with eight modes exactly the requested one |
| FuzzSeeds.PolicySeedDecodes | scripts/run_fuzz_campaign.py:115-133 | A preprocessor seed always exists and configures the preprocessor as requested |
| FuzzSeeds.PolicySeedsDecode | scripts/run_fuzz_campaign.py:102-133 | The 480 seeds decode to the 480 nested-loop policies in order |
| FuzzSeeds.PoliciesCover | fuzz/fuzz_targets/preprocess.rs:34-71 | Every preprocessor configuration is that of some seed |
| FuzzSeeds.PoliciesAreDistinct | fuzz/fuzz_targets/preprocess.rs:34-71 | No two seeds have the same configuration |
| FuzzSeeds.ParserSeedDecodes | scripts/run_fuzz_campaign.py:85-91 | Tab padding reaches every setting modulo 64 |
| FuzzSeeds.ParserSettingsCover | fuzz/fuzz_targets/parser.rs:55-65 | Every parser configuration is that of its setting: two bits for the flavor, two for the standard, one for GNU keywords, one for Microsoft extensions |
| FuzzSeeds.ParserSeedsCover | scripts/run_fuzz_campaign.py:85-91 | Every parser configuration is selected by the seed of its setting |
| FuzzSeeds.ParserSettingsAreDistinct | fuzz/fuzz_targets/parser.rs:55-65 | No two settings have the same configuration |
| MakeDependencies.DependencyPaths | scripts/audit_translation_units.py:276-299 | The decoding loop computes the words defined by the escape rules, or fails on another target |
| MakeDependencies.JoiningDropsContinuations | scripts/audit_translation_units.py:278 | Removing backslash-newline from written text removes exactly the continuations |
| MakeDependencies.DecodeEncode | scripts/audit_translation_units.py:276-299 | Whatever is written with the escapes is read back, with continuations anywhere |
| MakeDependencies.PathListRoundTrip | scripts/audit_translation_units.py:276-299 | Non-empty paths without backslash or newline, separated by whitespace and continuations, are read back exactly |
| MakeDependencies.SpacesAre | scripts/audit_translation_units.py:291 | The characters that separate words |
| MakeDependencies.DecodeReads | scripts/audit_translation_units.py:276-299 | Whatever its line breaks, a text is read as the words its lexemes say: a backslash escapes any character, two dollar signs are one, whitespace separates, all else stands for itself |
| MakeDependencies.EveryTextIsRead | scripts/audit_translation_units.py:276-299 | Every text spells such lexemes after the target or is refused for another target |
| ProbePrinter.PrintUnsigned | scripts/verify_corpus.py:93-96 | Prints the canonical decimal of any unsigned 128-bit value within 39 of the 40 slots |
| ProbePrinter.PrintSigned | scripts/verify_corpus.py:97-100 | Prints any signed 128-bit value, the smallest included, with no overflow |
| ProbePrinter.DecimalIsCanonical | scripts/verify_corpus.py:94 | The decimal has no leading zero and denotes the value |
| ProbePrinter.CanonicalIsDecimal | scripts/verify_corpus.py:94 | Every canonical digit string is the decimal of its value |
| ProbePrinter.SameTextIffSameValue | scripts/verify_corpus.py:214-217 | Printed texts are equal exactly when the integers are |
| ProbeGenerator.CollectEnums | scripts/verify_corpus.py:121-144 | The loop raises exactly when an emitted enumerator is no constant or repeats, and otherwise holds each once; its C lines rebuild every anonymous enumeration and print nothing |
| ProbeGenerator.RebuildingIsHygienic | scripts/verify_corpus.py:134-139 | An anonymous enumeration is declared where none of its enumerators is a macro, and afterwards every macro is defined as before |
| ProbeGenerator.CollectMacros | scripts/verify_corpus.py:145-157 | The loop raises exactly when a projected macro is not of the type of the last integer constant of its name, is an enumerator, or repeats |
| ProbeGenerator.KeysAreKeys | scripts/verify_corpus.py:158-279 | The keys of all items are exactly those of the bindings: expression keys for enumerators and projected macros, value, size and signedness for integers and Booleans, truth for Booleans, bytes for strings, size, alignment and offsets for records |
| ProbeGenerator.ProbeInteger | scripts/verify_corpus.py:158-227 | Each side's lines for an integer constant print exactly the keys of its expression and its constant |
| ProbeGenerator.ProbeBooleans | scripts/verify_corpus.py:228-254 | Raises exactly on a Boolean with integer metadata; otherwise both sides print the keys of every Boolean |
| ProbeGenerator.ProbeRecords | scripts/verify_corpus.py:268-279 | Both sides print size, alignment and every field offset of every record, and the offsets are counted |
| ProbeGenerator.ProgramsPrintKeys | scripts/verify_corpus.py:91-280 | The C program with its rebuilt enumerations and the Rust program print the same keys, exactly those of the bindings |
| ProbeGenerator.GenerateProbes | scripts/verify_corpus.py:85-300 | Raises exactly on incoherent metadata; otherwise yields exactly these two programs, line by line, though each is written separately, and the counts of what they cover |
| ProbeGenerator.CountIffDistinct | scripts/verify_equivalence.py:627-631 | The count of covered constants equals the number of constants exactly when none is recognised twice |
| ProbeLockstep.LabelsAreDistinct | scripts/verify_corpus.py:158-279 | Items with distinct names have distinct labels |
| ProbeLockstep.TextDetermines | scripts/verify_corpus.py:214-277 | Distinct labels have distinct texts |
| ProbeLockstep.ParseOutput | scripts/verify_corpus.py:303-310 | Raises exactly when a line has no separator or a key repeats; otherwise holds exactly the printed entries |
| ProbeLockstep.ProbesAreComparable | scripts/verify_corpus.py:303-310 | Whatever values are computed, both outputs parse, to the same keys, with every recognised constant among them |
| RetainedGraph.CheckPartition | fuzz/fuzz_targets/checked_invariants.rs:160-226 | Byte counters accept exactly the lists in which each element is listed once, by its owner alone |
| RetainedGraph.FlagsAreIndependent | fuzz/fuzz_targets/checked_invariants.rs:1153-1187 | Setting one coverage bit leaves the other bits as they were |
| RetainedGraph.Coverage.Mark | fuzz/fuzz_targets/checked_invariants.rs:1153-1154 | Marks one occurrence for one flag, failing exactly if it was marked, and changes no other flag |
| RetainedGraph.MarkRows | fuzz/fuzz_targets/checked_invariants.rs:1151-1196 | Five kinds of rows share one byte per occurrence; accepted exactly if no kind covers an occurrence twice |
| RetainedGraph.CheckCoverage | fuzz/fuzz_targets/checked_invariants.rs:1151-1208 | Accepts exactly if every occurrence that needs covering has exactly one row |
| RetainedGraph.AcceptedIffConsistent | fuzz/fuzz_targets/checked_invariants.rs:160-1208 | The accepted graphs are those that are consistent, in terms of the graph alone |
| RetainedGraph.Check | fuzz/fuzz_targets/checked_invariants.rs:160-1208 | Accepts exactly if every type operand and declaration is listed once, by its owner; every expression, statement, initializer and old-style parameter has exactly one row and every typeof outside attribute arguments one operand; and no rows are about one occurrence twice |
| RetainedTypes.ValidByComponents | fuzz/fuzz_targets/checked_invariants.rs:1306-1341 | A type is valid at every depth exactly if it is locally valid and its components are valid |
| RetainedTypes.Inspect | fuzz/fuzz_targets/checked_invariants.rs:1303-1342 | One step of the walk checks a type and adds exactly its components |
| RetainedTypes.TypeShape | fuzz/fuzz_targets/checked_invariants.rs:1301-1344 | The worklist terminates and accepts exactly the types that are valid at every depth |
| RetainedPaths.PathKeepsValid | fuzz/fuzz_targets/checked_invariants.rs:1284-1300 | A path from a type the shape walk accepts leads to a type it accepts, if resolving a name keeps types acceptable |
| RetainedPaths.ReachIffChain | fuzz/fuzz_targets/checked_invariants.rs:1254-1300 | A walk ends where chains of types lead that follow the relation of its steps, and nowhere if there is none |
| RetainedPaths.CheckTypeUse | fuzz/fuzz_targets/checked_invariants.rs:351-386 | Accepts exactly if every function path leads through parts of the types to a function and every extent path to an array that is not a vector |
| RetainedPaths.CheckOffset | fuzz/fuzz_targets/checked_invariants.rs:773-784 | Accepts exactly if every member leads from a complete record or an array to the next type |
| RetainedPaths.OffsetIgnoresGrouping | fuzz/fuzz_targets/checked_invariants.rs:1254-1263 | A member path leads where its fields and elements lead one by one, however they are grouped, unless a group is empty or an index expression is unknown |
| RetainedPaths.CheckPath | fuzz/fuzz_targets/checked_invariants.rs:889-922 | Accepts an initializer path exactly if every step leads on: a field of the named record, or an index or range end within the known bounds of an array |
| RetainedPaths.RangeCoversElements | fuzz/fuzz_targets/checked_invariants.rs:908-918 | Every element that an accepted path's ranges select leads to the same type |
| RetainedPaths.RangesAreTheirElements | fuzz/fuzz_targets/checked_invariants.rs:908-918 | A path with ranges is accepted exactly if the ranges are well formed and every choice of their elements is accepted |
| OriginRanges.CheckMappings | fuzz/fuzz_targets/preprocess.rs:76-94 | Accepts exactly the non-empty slices of the output that are pairwise disjoint and in order |
| OriginRanges.CheckComments | fuzz/fuzz_targets/preprocess.rs:117-126 | Accepts exactly the comments that are pairwise disjoint slices of the source in order, with their barriers |
| OriginRanges.LengthsFit | fuzz/fuzz_targets/preprocess.rs:76-94 | Accepted ranges together cover no more than the text |
| OriginRanges.LengthsAreCovered | fuzz/fuzz_targets/preprocess.rs:76-94 | Accepted ranges cover as many offsets as they are long together |
| OriginRanges.OffsetHasOneMapping | fuzz/fuzz_targets/preprocess.rs:81-82 | No offset lies in two ranges in order, so a lookup by offset is well defined |
| RetainedBodies.CheckBodies | fuzz/fuzz_targets/checked_invariants.rs:948-958 | Accepts exactly if an entity's own body is its last one and all earlier ones are superseded |

## Left out

- Subprocesses, files, archives, network, hashes and Cargo invocations: inputs and outputs are values.
- JSON, TOML, regular-expression and command-line parsing: the model starts from parsed data.
- `parse_probe` and the analyzer's probe program: observations are values; that a probe covers every record that is not opaque with all its fields (tools/binding_compare/src/main.rs:748-766) is the hypothesis `NativeProbes.Observes` of the verdict theorem, not of the comparison itself.
- Joined variant names: a variant is keyed by enum and variant, and joined with "::" only in the report.
- `canonical_elf_symbols`: symbol names are compared as given.
- The reasons of `classify` (`alias_reason`, `sqlite_callback_difference`, `validate_va_list`, the per-project tables): the gate is proved for every reason function.
- Order inside reports: sorted difference lists are sets, sorted edge and feature lists are multisets.
- `resolve` and sorting of decoded dependency paths: they read the working directory.
- The text of probe statements other than the keys they print: expressions are evaluated by compilers that are not part of this model.
- The textual rewriting of package ids between the audited copy and the compiled build: a function parameter of the searched graph.
- Single-lookup assertions of the retained-graph oracle (an id exists, a kind matches, a source span lies in the file), except those on which the counted and covered lists and the paths depend.
- Lookups of the preprocessing target at the ends of a mapped range: the tables belong to the library under test.
- Toucan's parser, preprocessor, semantic analysis and layout: name resolution, the value of an atomic type and alignment metadata are parameters of `RetainedTypes` and `RetainedPaths`.
- Evidence reports, timings, benchmarks, platform tables and test data.
