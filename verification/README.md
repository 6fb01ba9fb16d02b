# Shapeport mapping compiler: a verified model

Shapeport turns a pair of schemas into a transformation plan, runs the plan over
document records and checks the result against the target schema. This project
models that core in Dafny and proves what it promises:

- the planner is a compiler from schema pairs to plans, and a ready plan never
  fails; its output conforms to the target for every conforming input if and
  only if the leaf types it joined are inclusive, which is decided for all
  types;
- which values an inferred schema accepts is read off the records it was
  inferred from, so the whole pipeline (infer, plan, execute, validate) is safe
  under the same condition;
- the executor's error policies refine one another, batches compose, sorting is
  deterministic;
- the texts the program prints (field paths, decimals, canonical schemas,
  delimited cells, group keys) can be read back;
- joins and grouping in the SQL evaluator mean what they should.

Strings are sequences of characters, `IndexMap` is a sequence of entries whose
order is observable, errors carry a kind and a machine code. The parts of the
program that update state in place are methods and classes proved equal to
functions; the theorems are lemmas about those functions.

`dafny verify dfyconfig.toml` checks the project.

## Modules

| module | models | theorems |
|---|---|---|
| `Results`, `Orders`, `Text`, `IndexMaps`, `Bags` | shared notions: outcomes, stable sorting, digits, insertion-ordered maps | stable sort, digit text |
| `Values`, `Serialization`, `Decimals` | `value.rs` | decimal fidelity |
| `Paths` | `path.rs` | path round trip |
| `Schemas`, `Validation` | `schema.rs`, `json_schema.rs` (validation) | `Inclusion` |
| `Plans`, `Engine` | `plan.rs`, `engine.rs` | `EngineLaws`, `RecordLaws`, `RenameLaws` |
| `Planner`, `PlannerRun` | `planner.rs`, as functions and as the mutable build context | `PlannerSelection`, `PlannerOrder`, `SourceLeaves`, `Compiled`, `Soundness`, `Coverage`, `Emission`, `Scopes` |
| `Inference` | `formats.rs` (schema inference) | `InferenceLaws` |
| `Cells` | `formats.rs` (delimited cells) | cell stability |
| `Jsons`, `Fingerprint` | JSON text, `fingerprint.rs` | injectivity |
| `JsonSchema` | `json_schema.rs` (conversion) | `JsonSchemaLaws`, `ReadingLaws` |
| `Pipeline` | `app.rs` | pipeline safety |
| `Query` | `query.rs` | `JoinLaws`, `GroupLaws`, `SelectLaws`, `OrderByLaws` |

Hypotheses that recur: `WellNamedFields` says that names are distinct
identifiers of the field-path grammar of section 8.1 of RFC 0001 within every
record field paths can reach; `GapTest` says what is used of the floating-point
"less than 0.05 apart" test, leaving the boundary itself open; `Documents` says
that records are objects with identifier keys each of whose values is null or
fits one that its own column holds, which homogeneous values always do
(`Pipeline.HomogeneousDocuments`).

Where the code and its documentation differ, the model follows the code: a
descending sort key reverses null placement too (`EngineLaws.NullPlacement`),
two negative integers sort in reverse (`EngineLaws.IntegerRankOrder`), a
decimal's negative scale is dropped by rendering (`Decimals.RenderKeepsValue`),
a rename mapping is applied entry by entry, so a swap loses a field
(`RenameLaws.RenameAtOnce`, `RenameLaws.SwapLoses`), a list whose later element
lacks a field of its first is refused by the schema inferred from it
(`InferenceLaws.RaggedRefused`), `allOf` ignores parts that are no record
(`ReadingLaws.AllOfAccepts`), a reference to a bare reference reads as any type
(`ReadingLaws.ChainedReference`), ordering a column that mixes numbers and text
runs in a circle (`OrderByLaws.MixedColumn`),
and a type pair the planner calls compatible may still lose acceptance
(`Inclusion.JoinableInclusion`).

## Model

| member | source | states |
|---|---|---|
| `Soundness.CompilerCorrect` | crates/shapeport-core/src/planner.rs:107-395 | a ready plan turns every batch of source-conforming records into target-conforming ones, under every policy, if and only if every joined source leaf type is included in its target leaf type |
| `Soundness.CompilerDecided` | crates/shapeport-core/src/planner.rs:107-395 | whether a ready plan meets its target on every conforming batch is decided by reading off its joined leaf pairs |
| `Soundness.ReadyPlanRuns` | crates/shapeport-core/src/planner.rs:107-166 | a ready plan passes its shape check and, on conforming records and under any error policy, runs without error or reject and maps each record to its own image, in order |
| `Soundness.ContractsIdentifySchemas` | crates/shapeport-core/src/planner.rs:146-166 | under a digest that keeps canonical texts apart, two ready plans carry the same contracts if and only if they were planned for the same schemas up to metadata |
| `Soundness.FieldsRefuted` | crates/shapeport-core/src/planner.rs:201-245 | a join that is not inclusive has a witness: a conforming record whose image the target refuses |
| `Compiled.PlanCompiles` | crates/shapeport-core/src/planner.rs:107-245 | a ready plan is one non-empty map operation whose expressions follow the target order, read existing source leaves of joinable type, and skip only nullable leaves |
| `Compiled.BuildCompiles` | crates/shapeport-core/src/planner.rs:178-395 | the recursive build only adds unresolved targets, and when it adds none its expressions are compiled |
| `Compiled.PlanErrors` | crates/shapeport-core/src/planner.rs:107-166 | between well-named schemas the only error is an empty mapping, at the root or in a list element, and there is none when each of these has a target that must be mapped; path and element-plan errors cannot happen |
| `Compiled.CandidateReads` | crates/shapeport-core/src/planner.rs:168-176 | an accepted candidate's dotted path parses to the leaf that was scored, prints back to itself, and was not used before |
| `Coverage.TargetCoverage` | crates/shapeport-core/src/planner.rs:178-245 | every target leaf is mapped, omitted or left unresolved exactly once, nothing else is; omitted leaves are nullable; a mapped leaf holds the candidate selected when exactly the sources before it were used; and no source is used twice |
| `Coverage.BuildDecides` | crates/shapeport-core/src/planner.rs:178-299 | from any state, a build decides each plain path as often as it is a leaf of the targets |
| `Coverage.BuildUses` | crates/shapeport-core/src/planner.rs:335-395 | the used list grows by exactly the sources the built expressions read, in order, and stays free of repetitions |
| `Coverage.LeafMove` | crates/shapeport-core/src/planner.rs:201-395 | each target leaf makes one of five moves, with what justifies it: ask, leave open, omit, copy a leaf, map elements by a ready plan of their own |
| `Scopes.PlanScopes` | crates/shapeport-core/src/planner.rs:178-395 | in a ready plan, at the root and inside every list map however deep: each target leaf is decided once, its source was unused and dominates every rival, no source is read twice, and the outer explanation records the inner one |
| `Emission.ReadyPlanEmits` | crates/shapeport-core/src/engine.rs:196-202 | a successful image of a ready plan holds, at every record level and inside mapped list elements, exactly the target fields its explanation does not omit, in target order, so every required field is present |
| `Emission.PlanExplained` | crates/shapeport-core/src/planner.rs:397-424 | the omitted entries of a ready plan's explanation are, in order and through list elements, exactly the target paths its expressions leave out |
| `PlannerOrder.SourceOrderIrrelevant` | crates/shapeport-core/src/planner.rs:178-333 | permuting source fields at record levels changes neither status, nor chosen sources, nor the plan's operations, nor the explanation |
| `PlannerSelection.SelectionExact` | crates/shapeport-core/src/planner.rs:491-510 | selection depends on the bag of candidates alone: missing if and only if none reaches the threshold, mapped if and only if there is a winner |
| `PlannerSelection.MappedDominates` | crates/shapeport-core/src/planner.rs:476-510 | a mapped target takes an unused source at or above the threshold, and every other unused source is below the threshold or strictly lower and not too close |
| `PlannerSelection.AssignOrderIndependent` | crates/shapeport-core/src/planner.rs:476-489 | rearranged sources give the same assignment, up to the listing order of ambiguous candidates |
| `PlannerRun.BuildContext.BuildTargetFields` | crates/shapeport-core/src/planner.rs:178-199 | the in-place build updates used sources, unresolved targets and explanation exactly as the function over an explicit state |
| `PlannerRun.BuildContext.BuildTargetLeaf` | crates/shapeport-core/src/planner.rs:201-245 | the same for one leaf |
| `PlannerRun.BuildContext.BuildListMapping` | crates/shapeport-core/src/planner.rs:247-349 | the same for one list target |
| `PlannerRun.BuildContext.BuildRecordListMapping` | crates/shapeport-core/src/planner.rs:351-395 | the same for a list of records, planned recursively |
| `PlannerRun.BuildContext.RecordElementEntries` | crates/shapeport-core/src/planner.rs:397-414 | element explanations are appended with the list's paths in front |
| `PlannerRun.CollectSourceFields` | crates/shapeport-core/src/planner.rs:168-176 | the pushing traversal appends the source leaves in schema order |
| `PlannerRun.PlanMapping` | crates/shapeport-core/src/planner.rs:107-166 | planning with the mutable context equals the planning function |
| `SourceLeaves.LeafNames` | crates/shapeport-core/src/planner.rs:168-176 | each collected leaf is found again by a chain of identifiers whose join is its path, and the path parses to exactly those fields |
| `SourceLeaves.LeafReadAccepted` | crates/shapeport-core/src/engine.rs:407-420 | reading a leaf of a conforming record yields null or a value the leaf type accepts |
| `Validation.ObjectAccepted` | crates/shapeport-core/src/json_schema.rs:232-250 | an object is accepted if and only if each field is present and accepted, or absent and nullable |
| `Validation.ListAccepted` | crates/shapeport-core/src/json_schema.rs:252-257 | a list is accepted if and only if each element is |
| `Validation.UnionAccepted` | crates/shapeport-core/src/json_schema.rs:259-269 | a union accepts what some variant accepts |
| `Inclusion.InclusionDecided` | crates/shapeport-core/src/json_schema.rs:212-269 | for any two types, whether every accepted value of the one is accepted by the other is decided by a terminating comparison of their structure, unions of records and lists included |
| `Inclusion.JoinableInclusion` | crates/shapeport-core/src/schema.rs:240-258 | of the leaf pairs the planner may join, exactly which keep acceptance when copied without a cast |
| `Inclusion.UnionInclusion` | crates/shapeport-core/src/json_schema.rs:259-269 | a union is included in a type if and only if each variant is |
| `Inclusion.UnknownInclusion` | crates/shapeport-core/src/json_schema.rs:212-230 | an unknown source is included exactly in types that accept everything |
| `Inference.FieldTable.UpdateExisting` | crates/shapeport-core/src/formats.rs:517-533 | updating the field list in place equals the update function, or stops at the first conflict |
| `Inference.FieldTable.AppendNew` | crates/shapeport-core/src/formats.rs:535-542 | unseen names are appended in object order as nullable fields |
| `Inference.FieldTable.Unify` | crates/shapeport-core/src/formats.rs:506-515 | the loop over records equals the fold of merges |
| `Inference.InferFromRecords` | crates/shapeport-core/src/formats.rs:494-504 | the imperative inference equals the inference function |
| `InferenceLaws.InferenceIsColumnwise` | crates/shapeport-core/src/formats.rs:494-542 | inference fails if and only if some column has no unified type; otherwise names come in first-seen order, each with its column's type, nullable if and only if some object lacks it or holds null |
| `InferenceLaws.FitsExact` | crates/shapeport-core/src/formats.rs:544-569 | the type inferred from one value accepts another if and only if that value fits the first, kind by kind, element by element and entry by entry |
| `InferenceLaws.ColumnExact` | crates/shapeport-core/src/formats.rs:571-587 | in every mode, a column's unified type accepts null, what fits a value of the column that is not null, and nothing else unless the column is all null |
| `InferenceLaws.SchemaExact` | crates/shapeport-core/src/formats.rs:494-587 | in every mode, the inferred schema accepts null and exactly the objects that, under every name seen, hold null or a fitting value, or lack a name that some record lacks or holds null under |
| `InferenceLaws.InferenceExact` | crates/shapeport-core/src/formats.rs:494-587 | with no hypothesis on the values, which of its own records the inferred schema accepts: null, and the objects each of whose values is null or fits one of its own column |
| `InferenceLaws.InferenceSound` | crates/shapeport-core/src/formats.rs:494-587 | so in every mode it accepts, of homogeneous records, exactly the objects and nulls |
| `InferenceLaws.LoneRecord` | crates/shapeport-core/src/formats.rs:494-504 | a record alone is accepted by its inferred schema if and only if it is homogeneous |
| `InferenceLaws.RaggedRefused` | crates/shapeport-core/src/formats.rs:559-566 | a list whose second element lacks a field of the first is refused by the schema inferred from its own record |
| `InferenceLaws.ColumnAccepted` | crates/shapeport-core/src/formats.rs:571-587 | a column's unified type accepts each of its values, and stays unknown if and only if the column has only held null |
| `InferenceLaws.ConservativeIsExact` | crates/shapeport-core/src/formats.rs:571-587 | conservatively, a column's type is the exact type of each value that is not null |
| `InferenceLaws.SelfAccepted` | crates/shapeport-core/src/formats.rs:544-569 | a value is accepted by its own inferred type if and only if it holds no binary, date or timestamp outside lists and every list element fits the first |
| `InferenceLaws.InferenceWellNamed` | crates/shapeport-core/src/formats.rs:494-569 | identifier keys give distinct identifier names at every level |
| `Pipeline.InferredSource` | crates/shapeport-core/src/formats.rs:494-587 | of object records with identifier keys, the inferred schema accepts them all if and only if each value is null or fits one of its column, and is well named |
| `Pipeline.PipelineSafe` | crates/shapeport-core/src/app.rs:157-224 | without an explicit plan, a ready mapping runs on such records one to one and in order; the request then succeeds exactly when every image conforms, which inclusive joins guarantee |
| `Pipeline.TransformValidates` | crates/shapeport-core/src/app.rs:172-179 | whatever the plan, validated output conforms to the target |
| `Pipeline.TransformData` | crates/shapeport-core/src/app.rs:170-180 | on decoded records, the sequence of calls with the overwritten error policy, from resolving the plan to the last validation, equals the transform function |
| `Pipeline.ResolveRequest` | crates/shapeport-core/src/app.rs:197-224 | an explicit plan is checked and used, otherwise one is planned from the inferred schema |
| `Pipeline.ValidateRecords` | crates/shapeport-core/src/app.rs:174-179 | the validation loop reports the first refusal |
| `Engine.ExecuteDetailed` | crates/shapeport-core/src/engine.rs:36-47 | the operation loop equals the fold of operations, rejects accumulated in order |
| `Engine.ApplyOperation` | crates/shapeport-core/src/engine.rs:49-63 | one operation appends its rejects to the earlier ones |
| `Engine.MapRecords` | crates/shapeport-core/src/engine.rs:65-82 | the record loop equals the fold of record steps |
| `Engine.HandleRecordResult` | crates/shapeport-core/src/engine.rs:84-103 | what each policy does with a result |
| `Engine.FilterRecords` | crates/shapeport-core/src/engine.rs:214-248 | the filter loop keeps truthy records and applies the policy to failures |
| `Engine.ExplodeRecords` | crates/shapeport-core/src/engine.rs:307-318 | explode fails on the first failing record and never rejects |
| `Engine.ExplodeOne` | crates/shapeport-core/src/engine.rs:320-345 | one record is exploded behind the records already made |
| `Engine.RenameInPlace` | crates/shapeport-core/src/engine.rs:138-148 | the mapping is applied entry by entry to the record's own map |
| `Engine.DropInPlace` | crates/shapeport-core/src/engine.rs:150-160 | the listed simple fields are removed from the record's own map |
| `Engine.Project` | crates/shapeport-core/src/engine.rs:127-136 | projection inserts each path's value in order, or fails on a path that is not simple |
| `Engine.ReadPathLoop` | crates/shapeport-core/src/engine.rs:407-420 | walking a path segment by segment turns every miss into null |
| `Engine.ListMapPointwise` | crates/shapeport-core/src/engine.rs:386-405 | a list map succeeds if and only if every element does, and keeps length, order and null positions |
| `RecordLaws.DropRemoves` | crates/shapeport-core/src/engine.rs:150-160 | dropping removes exactly the simply named fields |
| `RecordLaws.RenameMoves` | crates/shapeport-core/src/engine.rs:138-148 | one entry of a mapping moves the value and replaces any field of the new name |
| `RenameLaws.RenameStems` | crates/shapeport-core/src/engine.rs:138-148 | whatever the mapping, each field of the result has the value of a field the mapping takes to its name, and a name is absent exactly when no field is taken there |
| `RenameLaws.RenameAtOnce` | crates/shapeport-core/src/engine.rs:138-148 | a mapping acts as one simultaneous rename on every record if and only if no entry renames what an earlier one has named |
| `RenameLaws.SwapLoses` | crates/shapeport-core/src/engine.rs:138-148 | swapping two names keeps the first field where it was and loses the second |
| `RecordLaws.ProjectReads` | crates/shapeport-core/src/engine.rs:127-136 | projection holds the value read at each named path and nothing else |
| `RecordLaws.CoalesceFirst` | crates/shapeport-core/src/engine.rs:204-212 | coalesce answers with the first value that is not null and evaluates nothing beyond it |
| `RecordLaws.CastConforms` | crates/shapeport-core/src/engine.rs:422-463 | a successful cast yields null or a value the named type accepts |
| `RecordLaws.CastIdempotent` | crates/shapeport-core/src/engine.rs:422-463 | casting again, under any policy, changes nothing |
| `RecordLaws.TryCastFails` | crates/shapeport-core/src/engine.rs:422-475 | on known targets a try cast fails exactly for decimals to float and unreadable integer or decimal texts |
| `RecordLaws.StrictIntegers` | crates/shapeport-core/src/engine.rs:465-475 | an integer text a strict cast accepts prints back as written if and only if it has no plus sign and no zero behind a minus sign |
| `EngineLaws.PoliciesRefine` | crates/shapeport-core/src/engine.rs:36-103 | skip and collect agree on success and records; fail succeeds if and only if collect succeeds without rejects, and then all three runs are equal |
| `EngineLaws.CollectConserves` | crates/shapeport-core/src/engine.rs:84-103 | under collect, without filter and explode, records and rejects together are as many as the input |
| `EngineLaws.RejectIndicesIncrease` | crates/shapeport-core/src/engine.rs:65-103 | reject indices of one operation increase strictly and point at its failing records |
| `EngineLaws.BatchHomomorphism` | crates/shapeport-core/src/engine.rs:36-82 | without a sort, running a concatenation succeeds exactly when both runs do, concatenates their records, and has operation by operation the rejects of both, the second's indices shifted by what the first run left there |
| `EngineLaws.ExplodeIsFlatMap` | crates/shapeport-core/src/engine.rs:307-345 | explode is an order-preserving flat map that succeeds exactly when each record explodes |
| `EngineLaws.ExplodedElements` | crates/shapeport-core/src/engine.rs:320-359 | an exploded array gives one record per element, in order, each the parent with the destination field replaced |
| `EngineLaws.RecordOrderPreorder` | crates/shapeport-core/src/engine.rs:258-293 | comparing records is a total preorder for every key list, order and nulls setting |
| `EngineLaws.SortIsDeterministic` | crates/shapeport-core/src/engine.rs:250-256 | a list is the result of the sort if and only if it is the stably sorted permutation of the input |
| `EngineLaws.IntegerRankOrder` | crates/shapeport-core/src/engine.rs:295-305 | padded integer ranks compare numerically if and only if the integers are not two different negatives |
| `EngineLaws.NullPlacement` | crates/shapeport-core/src/engine.rs:258-293 | where nulls go for each combination of order and nulls setting |
| `Paths.ParsePath` | crates/shapeport-core/src/path.rs:25-33 | the parsing loop equals the parsing function |
| `Paths.ParseSegments` | crates/shapeport-core/src/path.rs:103-117 | the loop that advances the rest and pushes segments consumes the input and equals the recursive parse |
| `Paths.IdentLen` | crates/shapeport-core/src/path.rs:126-146 | the scan finds the longest identifier at the front, or there is none |
| `Paths.RenderPath` | crates/shapeport-core/src/path.rs:199-217 | the buffer that is appended to ends up as the rendering |
| `Paths.RenderThenParse` | crates/shapeport-core/src/path.rs:25-217 | every well-formed path survives printing and parsing |
| `Paths.ParseThenRender` | crates/shapeport-core/src/path.rs:25-217 | every parsed path is well formed and parses from its own rendering to itself |
| `Paths.ParseImage` | crates/shapeport-core/src/path.rs:25-51 | the parser yields exactly the well-formed paths |
| `Paths.JoinedNamesParse` | crates/shapeport-core/src/planner.rs:462-468 | a chain of joined identifiers parses back to exactly those field segments |
| `Paths.JoinNamesInjective` | crates/shapeport-core/src/planner.rs:462-468 | different chains of identifiers have different dotted paths |
| `Decimals.ParseDecimalText` | crates/shapeport-core/src/value.rs:203-233 | the coefficient built and rewritten step by step is the normalized one |
| `Decimals.ParseAccepts` | crates/shapeport-core/src/value.rs:203-245 | accepted texts are exactly the numerals with at most 127 fraction digits |
| `Decimals.ParseKeepsValue` | crates/shapeport-core/src/value.rs:203-245 | an accepted text and its decimal denote the same rational, and the scale counts the fraction digits |
| `Decimals.RenderKeepsValue` | crates/shapeport-core/src/value.rs:247-273 | rendering keeps the value if and only if the scale is not negative or the value is zero, and keeps a non-negative scale |
| `Decimals.ParsedRoundTrip` | crates/shapeport-core/src/value.rs:203-273 | the rendering of a parsed decimal parses to the same decimal, the sign of zero fractions included |
| `Cells.CellStable` | crates/shapeport-core/src/formats.rs:283-301 | decoding, writing and decoding a cell again gives the same value if and only if it is not a numeral that ends in its point |
| `Cells.LeadingZeroVerbatim` | crates/shapeport-core/src/formats.rs:283-291 | a cell that starts with zero and a digit comes back verbatim |
| `Cells.TypedCellsKeepValue` | crates/shapeport-core/src/formats.rs:288-301 | a cell typed integer or decimal keeps its numeric value, a decimal its fraction digits, and text is the cell itself |
| `Jsons.PrintUnique` | crates/shapeport-core/src/fingerprint.rs:126-157 | compact JSON text is uniquely readable: a delimited prefix determines the document (escaping per section 7 of RFC 8259) |
| `Jsons.CanonicalInjective` | crates/shapeport-core/src/fingerprint.rs:126-157 | documents have the same canonical text if and only if they are equal after sorting object keys |
| `Fingerprint.FingerprintTextInjective` | crates/shapeport-core/src/fingerprint.rs:10-157 | two types have the same canonical text if and only if they are equal after erasing metadata |
| `Serialization.ValueReadable` | crates/shapeport-core/src/value.rs:109-131 | every value serializes to a readable JSON document |
| `JsonSchema.RecordSchema` | crates/shapeport-core/src/json_schema.rs:184-200 | pushing properties and required names builds the record's document |
| `JsonSchema.ReadType` | crates/shapeport-core/src/json_schema.rs:18-30 | a local reference is replaced by its target, once, and the dispatch on the node reached equals the conversion function |
| `JsonSchema.ReadResolved` | crates/shapeport-core/src/json_schema.rs:20-56 | the dispatch on a node whose reference has been followed equals the conversion function |
| `ReadingLaws.AnswerUnique` | crates/shapeport-core/src/json_schema.rs:18-153 | whatever the document and its references, two bounds on following them that both suffice give the same answer |
| `ReadingLaws.SelfReference` | crates/shapeport-core/src/json_schema.rs:132-153 | a list whose elements refer back to it has no answer, however many references are followed |
| `ReadingLaws.ChainedReference` | crates/shapeport-core/src/json_schema.rs:18-56 | a reference to a bare reference is not followed on and reads as any type |
| `ReadingLaws.AllOfAccepts` | crates/shapeport-core/src/json_schema.rs:92-102 | what `allOf` accepts: the conjunction of its records with other parts ignored, unless a part that is no record comes before any field and is the whole answer |
| `ReadingLaws.NullableName` | crates/shapeport-core/src/json_schema.rs:104-117 | a type list of a name and null reads exactly when the name alone does and accepts the same values |
| `JsonSchema.ReadRecord` | crates/shapeport-core/src/json_schema.rs:58-69 | the property loop pushes fields in order, nullable unless required |
| `JsonSchema.ReadUnion` | crates/shapeport-core/src/json_schema.rs:81-90 | the loop over alternatives collects their types or the first error |
| `JsonSchema.ReadNullableUnion` | crates/shapeport-core/src/json_schema.rs:104-117 | a list of type names becomes one variant per name, each read off the whole node |
| `JsonSchema.ReadAllOf` | crates/shapeport-core/src/json_schema.rs:92-102 | records are merged, a leading other type is the answer |
| `JsonSchemaLaws.RoundTrip` | crates/shapeport-core/src/json_schema.rs:18-200 | every type with distinct field names converts and comes back with the same fields, order and nullability |
| `JsonSchemaLaws.RoundTripKeepsValues` | crates/shapeport-core/src/json_schema.rs:18-269 | types of null, bool, int, float, decimal, string, record, list and union come back accepting exactly the same values |
| `JsonSchemaLaws.AtomsKeepValues` | crates/shapeport-core/src/json_schema.rs:155-182 | among types without parts, those are exactly the ones that do |
| `JsonSchemaLaws.RoundTripDecided` | crates/shapeport-core/src/json_schema.rs:18-269 | for every type with distinct field names, whether it comes back accepting the same values is decided by comparing the two types both ways |
| `Query.JoinTables` | crates/shapeport-core/src/query.rs:153-174 | the nested loops equal the concatenation of each left row's matches, or the row itself |
| `Query.MergeRows` | crates/shapeport-core/src/query.rs:229-237 | the right row's entries are added only where the left has none |
| `Query.CollectGroups` | crates/shapeport-core/src/query.rs:266-272 | the grouping loop equals the fold of insertions |
| `JoinLaws.JoinMembers` | crates/shapeport-core/src/query.rs:153-174 | an inner join holds exactly the merges of matching pairs; a left join adds exactly the left rows that match nothing |
| `JoinLaws.LeftJoinExtendsInner` | crates/shapeport-core/src/query.rs:153-174 | the left join is the inner join with each unmatched left row in its place |
| `JoinLaws.JoinedRowOrigin` | crates/shapeport-core/src/query.rs:67-76 | a row of chained joins is merged from rows of its tables, and every column has the value of the earliest table that contributes it |
| `JoinLaws.FilterPushdown` | crates/shapeport-core/src/query.rs:36-39 | a filter over columns every left row has may be applied before or after the join |
| `JoinLaws.WherePushdown` | crates/shapeport-core/src/query.rs:31-76 | the same through a whole chain of joins, errors included |
| `GroupLaws.SameGroup` | crates/shapeport-core/src/query.rs:290-296 | two rows share a group if and only if every key expression serializes identically on both |
| `GroupLaws.JoinDecodes` | crates/shapeport-core/src/query.rs:290-296 | JSON texts joined by a bar are equal only part by part |
| `GroupLaws.GroupingPartitions` | crates/shapeport-core/src/query.rs:266-281 | groups come in first-encounter order, each holds exactly the rows with its key in row order, and together they are a permutation of the rows |
| `GroupLaws.GroupingSucceeds` | crates/shapeport-core/src/query.rs:266-272 | grouping succeeds if and only if every row has a key |
| `GroupLaws.CountsAddUp` | crates/shapeport-core/src/query.rs:266-362 | whatever the argument of the count, its column in the output rows adds up to the number of grouped rows |
| `GroupLaws.OneRowPerGroup` | crates/shapeport-core/src/query.rs:273-281 | each group yields one output row, in group order |
| `Query.ExecuteSelect` | crates/shapeport-core/src/query.rs:36-40 | loading, the join loop, filtering, grouping and the projection loop equal the selection function, errors included |
| `Query.ExecuteQuery` | crates/shapeport-core/src/query.rs:31-48 | rejecting WITH and other statements, selecting, ordering and truncating in sequence equal the query function |
| `OrderByLaws.OrderByDeterministic` | crates/shapeport-core/src/query.rs:594-615 | over columns that are all numeric or all not, the ordered rows are the one stable arrangement by the keys, whatever their direction |
| `OrderByLaws.MixedColumn` | crates/shapeport-core/src/query.rs:561-566 | in a column that mixes numbers and text, 9, 10 and "5" compare in a circle |
| `OrderByLaws.QueryPrefix` | crates/shapeport-core/src/query.rs:41-47 | ordering rearranges what the selection gives, a limit keeps a prefix of at most that many rows, and errors do not depend on the limit |
| `SelectLaws.SelectPushdown` | crates/shapeport-core/src/query.rs:31-76 | for a whole selection, WHERE over columns of the first table may be applied to that table before all joins: same rows or same error |
| `SelectLaws.SelectMaps` | crates/shapeport-core/src/query.rs:239-248 | without grouping, a selection maps the kept rows one to one and in order |
| `SelectLaws.SelectGroups` | crates/shapeport-core/src/query.rs:239-281 | with grouping, a selection has one row per key of the kept rows, in first-encounter order, each projected from exactly the rows under its key |
| `SelectLaws.SelectCounts` | crates/shapeport-core/src/query.rs:239-281 | a count column of a whole selection adds up to the number of kept rows |
| `SelectLaws.KeyColumn` | crates/shapeport-core/src/query.rs:266-353 | a column that prints a grouping expression shows what the expression gives on every member of the row's group, up to serialization |
| `Orders.StableSortUnique` | crates/shapeport-core/src/engine.rs:250-256 | for a total preorder, the stably sorted permutation of a list is unique |

## Left out

- Planner scores are reals and the gap test is a parameter: which side the exact 0.05 boundary falls on, where floating point rounds, is not claimed.
- PlannerOrder.SourceOrderIrrelevant: does not cover permuting fields inside list elements, because equal element types are compared with their field order.
- JsonSchema.ReadType: takes a bound on how many references are followed one inside the other; the program has none and does not return from a reference that contains itself. Looking up a JSON pointer in the root document is a parameter.
- JsonSchemaLaws.RoundTrip: does not cover repeated field names within a record, which a JSON object cannot carry.
- GroupLaws.CountsAddUp: does not cover 2^63 rows and more, where the count saturates.
- SelectLaws.SelectCounts: does not cover 2^63 rows and more either.
- Pipeline.TransformData: does not model loading and decoding before it, nor row, depth and output limits and encoding, each of which can also fail the request.
- InferenceLaws.InferenceSound: does not cover binary, date and timestamp values nor lists with an element that does not fit the first; `InferenceLaws.InferenceExact` says for all records which are accepted.
- OrderByLaws.OrderByDeterministic: does not cover columns that mix numbers and text, where the comparison is not transitive and what the library's sort returns is not specified; there `Query.ExecuteQuery` takes an insertion sort.
- The function registry (`functions.rs`), float parsing, arithmetic, comparison and text, base64 and derived equality of values are parameters (`Values.Lib`).
- The SHA-256 digest: the planner's fingerprint is a parameter, and `Fingerprint.DigestOfText` says what is asked of it where contracts are compared.
- Error messages and diagnostics; an error is a kind and a code, a reject an index and a code.
- SQL parsing, reading the limit off its expression, and the column name printed for an unnamed expression; the syntax tree is abstract.
- SUM, AVG, MIN and MAX values, which are float arithmetic.
- Aggressive and untyped cell decoding and null spellings.
- Decoders and encoders for JSON, CSV, YAML, Parquet and Arrow, format probing, row, depth and byte limits, file and artifact access.
- Configuration, command line and server packages.
