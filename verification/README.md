# Mergeway: verified models

Mergeway keeps typed objects in YAML and JSON files, with schemas, inheritance between types and
references between objects. Around that it has a semantic diff, a formatter, a validator, a language
server that revalidates open buffers, and a JSON Schema export and import. The modules here model the
logic of these parts and prove what it is for.

| module | models |
|---|---|
| `SemanticValue`, `FieldDiff`, `DatabaseDiff` | the canonical text of values, the changes between two records, the entries between two databases, and building a database |
| `EditDistance`, `EditDetours` | the optimal-string-alignment table, the choice of a unique nearest candidate, and when a detour can be shorter |
| `Formatter`, `FormatterOrder`, `FormatterRuns`, `FormatterProgram`, `JsonText` | the two formatting passes, the order they give, when one run is enough, the passes in place as the program does them, and the JSON printer with a parser to read it back |
| `Inheritance`, `Includes` | the cycle check, the memoised resolution of types, the ancestor queries, and the loading of a configuration spread over files |
| `Reload`, `Publish` | debounced reloads as interleaved steps, the class whose methods take those steps, and the publishing of diagnostics |
| `StoreFiles`, `StoreReading`, `StoreOps`, `StoreListings`, `StoreRefinement`, `StoreFields`, `StoreWitnesses`, `Store` | files with one object or a list of items and what reading them gives, create, update and delete on them, what these do to the listing of each type, to the map from type and identifier to fields, and to the fields themselves, concrete stores in which a write goes wrong, and the class with the loops |
| `FieldRules`, `Validation`, `RecordRules` | field rules, which records are right, the two indexes of the schema phase, reference resolution and the sequence of phases |
| `SchemaExport`, `JsonPointer`, `SchemaImport`, `SchemaRoundTrip` | writing fields as JSON Schema and reading them back, resolving pointers, the importer with its references, and the round trip of all that a schema can say |
| `Text` | ordered strings, sorting and the other vocabulary the rest shares |

Methods carry the loops and assignments of the program and are proved equal to a specification
function or predicate; the lemmas state what that specification amounts to.

## What does not hold as one might expect

Each of these has a lemma with inputs for which it happens, named first, and where the property can be
saved a lemma with the exact condition, named after it.

- Object keys are not quoted in the canonical text, so every record of two fields has the text of another whose key holds a colon (`ColonInKeyCollides`), and a brace at the start of a key can do the same (`BraceInKeyCollides`). Keys without a colon and without a leading closing brace suffice for values to be equal exactly if equivalent (`CanonDecidesEquiv`).
- A change to null and a deletion are the same change (`NullIsLost`, `NullIsLikeDeleted`), so a patch meets the right record exactly if no field becomes null (`PatchMeetsRight`).
- The edit distance violates the triangle inequality (`TriangleInequalityFails`). It holds where neither leg swaps two neighbours (`TriangleWithoutSwaps`), and through a given text for all others exactly if that text repeats one character (`NoShortcutExactly`).
- One formatter run can be too few; two are always enough (`OneRunCanBeTooFew`, `FormatConverges`). One is enough exactly if sort keys before and after the schema order agree on the order of elements (`OneRunExactly`).
- Overlapping reloads can leave stale roots, and even ordered installs can leave stale diagnostics (`LateInstallIsStale`, `LatePublishIsStale`; `QuietRootsExactly`, `QuietClientExactly`).
- A created object can overwrite another whose identifier yields the same file name (`SecondOverwrites`, `SlashAndColon`), be lost in a literal file that holds one bare object (`LostInBareFile`) or in a file its type does not read (`LostInUnreadFile`), and be misread when it has an `items` field (`MisreadItems`); `CreateAddsExactly` is the exact condition. The same `items` field spoils an update (`SpoiledByItems`, `UpdateReplacesExactly`).
- Deleting an object can uncover an inline object of the same identifier (`DeleteUncovers`, `DeleteRefines`).
- A null written out is checked like a missing field, so it does not meet the required mark, but takes part in uniqueness (`NullsConflict`); records of a type are free of faults exactly if each is right and no two share an identifier or a unique value (`ValidateTypeSchema`).
- The files are read whether or not they were to be checked, and one that cannot be read then keeps the other phases from running without a word; this is the only way in which silence misleads (`UnreadableFileMutes`, `SilenceMisleadsExactly`).
- An enumeration without choices comes back from JSON Schema as plain text (`EmptyEnumIsText`, `ExportReadsBack`), and an empty key cannot be reached by a pointer (`EmptyKeysAreSkipped`, `PointerReaches`).

## Assumptions the theorems name

- Paths: which paths a pattern matches, what a selector picks, regular expressions, text formats and the evaluation of a root are functions of the world, about which nothing is assumed.
- Uniqueness of file ownership (`Exclusive`): a path is read through at most one include of one type. The listing theorems ask this of the one path written, `RunRefines` of all paths.
- `Trees`: the configured types form inheritance trees, which every configuration that loads does (`ResolvedIsConsistent`).
- `PlainId`: the identifier is not kept under a key that the store itself writes or removes (`type`, `Type`, `$path`, `items`).
- `Clean`: object keys hold no delimiter of the canonical text and scalars are JSON tokens; only the direction from text to value needs it.
- Names of types hold no NUL.
- `Plain`: object keys are nonempty and hold no dot, so that the path of a change can be taken apart again; only patching needs it.

## Model

| member | source | states |
|---|---|---|
| SemanticValue.SemanticCanonicalValue | internal/diff/diff_semantic.go:209-247 | the recursion with its two appending loops computes the canonical text |
| SemanticValue.SemanticValuesEqual | internal/diff/diff_semantic.go:197-207 | equal exactly when the canonical texts are, hence (CanonDecidesEquiv) exactly for equivalent values |
| SemanticValue.EquivHasSameCanon | internal/diff/diff_semantic.go:197-247 | for all trees: trees that agree up to the order of lists at every depth have one canonical text |
| SemanticValue.SameCanonIsEquiv | internal/diff/diff_semantic.go:197-247 | for delimiter-free keys and JSON scalar tokens: the canonical text determines the tree up to list order |
| SemanticValue.CanonDecidesEquiv | internal/diff/diff_semantic.go:197-247 | both directions: canonical equality decides equivalence of clean trees |
| SemanticValue.EquivReflexive | internal/diff/diff_semantic.go:197-207 | every value is equivalent to itself |
| SemanticValue.ShuffledListsAreEquiv | internal/diff/diff_semantic.go:229-239 | any permutation of a list is equivalent to it |
| SemanticValue.ColonInKeyCollides | internal/diff/diff_semantic.go:226 | keys are not quoted: for every record of two fields there is a different one, whose only key has a colon, with the same text |
| SemanticValue.BraceInKeyCollides | internal/diff/diff_semantic.go:226-228 | so does a brace, even with balanced delimiters |
| FieldDiff.DiffObjectFields | internal/diff/diff_semantic.go:131-173 | the loops produce the changes of the specification, key by key in sorted order |
| FieldDiff.DiffLogicalValues | internal/diff/diff_semantic.go:175-195 | no change for equal values, a recursion into two objects, else one change |
| FieldDiff.KeySet | internal/diff/diff_semantic.go:132-138 | exactly the keys of either side |
| FieldDiff.PatchMeetsRight | internal/diff/diff_semantic.go:131-195 | for records whose keys are nonempty and free of dots: applying the changes to the left record gives one equivalent to the right record if and only if no field becomes null |
| FieldDiff.NullIsLost | internal/diff/diff_semantic.go:151-162 | a change to null deletes, so the patched record lacks the field |
| FieldDiff.NullIsLikeDeleted | internal/diff/diff_semantic.go:151-162 | in every record, a field that becomes null and a field that is deleted produce the same changes |
| FieldDiff.NoChangesIffEquiv | internal/diff/diff_semantic.go:131-195 | there are no changes exactly when the records are equivalent |
| FieldDiff.SwapSides | internal/diff/diff_semantic.go:131-195 | exchanging the arguments exchanges old and new in every change, at the same paths and in the same order |
| FieldDiff.ChangesReportValues | internal/diff/diff_semantic.go:151-194 | every change names a path and reports the values that the two records hold there |
| FieldDiff.ChangesAreInKeyOrder | internal/diff/diff_semantic.go:131-146 | changes come in the order of the top-level keys they are about |
| FieldDiff.SplitPlainKey | internal/diff/diff_semantic.go:143-146 | a dot-free key survives the joining of paths |
| DatabaseDiff.MapKeyIsInjective | internal/diff/diff_logical_database.go:387-389 | distinct identities have distinct keys when type names hold no NUL |
| DatabaseDiff.KeyOrder | internal/diff/diff_logical_database.go:387-389 | the order of the joined keys is the order by type, then identifier |
| DatabaseDiff.BuildLogicalDatabase | internal/diff/diff_logical_database.go:94-150 | building succeeds exactly when every file parses and no two records share an identity, and lists what was found |
| DatabaseDiff.FoundExactly | internal/diff/diff_logical_database.go:100-131 | the records found are those of the files that parse, one file after another |
| DatabaseDiff.ListingIsOrdered | internal/diff/diff_logical_database.go:132-147 | the database holds exactly the records found, strictly ordered by type and identifier |
| DatabaseDiff.BuiltFromRecordsOnly | internal/diff/diff_logical_database.go:100-147 | the database depends on the records only, not on the order in which files are visited |
| DatabaseDiff.LogicalObjectsByKey | internal/diff/diff_semantic.go:123-129 | the loop builds the map from identity to record |
| DatabaseDiff.SourcesEqualIsMultisetEquality | internal/diff/diff_semantic.go:249-274 | the sources compare equal exactly when they are the same multiset |
| DatabaseDiff.DiffLogicalDatabases | internal/diff/diff_semantic.go:50-121 | the loop over the sorted union of keys produces the specified entries |
| DatabaseDiff.DiffRecord | internal/diff/diff_semantic.go:70-117 | the branches for one identity |
| DatabaseDiff.FindIsMembership | internal/diff/diff_semantic.go:123-129 | looking up an identity finds exactly the record of the database that has it |
| DatabaseDiff.DiffClassifies | internal/diff/diff_semantic.go:66-118 | for every identity: no entry if values and sources agree, else exactly one, which is added, removed, modified or relocated as it should be, with the two values and the field changes |
| DatabaseDiff.EntriesAreInOrder | internal/diff/diff_semantic.go:62-66 | entries are strictly ordered by type and identifier |
| DatabaseDiff.ApplyingTheDiff | internal/diff/diff_semantic.go:50-121 | applying the entries to the left database gives the right one up to list order and source multiset |
| DatabaseDiff.DiffFlips | internal/diff/diff_semantic.go:50-121 | comparing the other way round exchanges added with removed and old with new |
| DatabaseDiff.SelfDiffIsEmpty | internal/diff/diff_semantic.go:50-121 | a database compared with itself has no entries |
| EditDistance.DamerauLevenshtein | internal/lsp/code_actions.go:403-442 | the filled table ends in the least cost over all edit scripts |
| EditDistance.FillCell | internal/lsp/code_actions.go:426-438 | one cell: the smallest of deletion, insertion, substitution and adjacent transposition |
| EditDistance.TableIsLowerBound | internal/lsp/code_actions.go:417-439 | no script costs less than the cell of the prefixes it rewrites |
| EditDistance.TableIsReached | internal/lsp/code_actions.go:417-439 | some script costs exactly the cell |
| EditDistance.TableHoldsDistance | internal/lsp/code_actions.go:417-441 | the last cell is the distance, defined over scripts rather than by the recurrence |
| EditDistance.DistanceIsSymmetric | internal/lsp/code_actions.go:403-442 | the distance is symmetric |
| EditDistance.DistanceZeroIffEqual | internal/lsp/code_actions.go:403-442 | it is zero exactly for equal texts |
| EditDistance.DistanceBounds | internal/lsp/code_actions.go:403-442 | it lies between the difference of the lengths and the longer length |
| EditDistance.TriangleInequalityFails | internal/lsp/code_actions.go:435-437 | because no substring is edited twice it is not a metric: ca, ac, abc |
| EditDetours.TriangleWithoutSwaps | internal/lsp/code_actions.go:435-437 | the triangle inequality holds for all texts neither pair of which has a swapped adjacent pair, the guard of the transposition branch |
| EditDetours.NoShortcutExactly | internal/lsp/code_actions.go:403-442 | a text lies on no shortcut between any two others exactly if all its characters are equal |
| EditDistance.MinInt | internal/lsp/code_actions.go:484-492 | the least of the values |
| EditDistance.BestStringCandidate | internal/lsp/code_actions.go:358-390 | a candidate is chosen exactly if it is the only nearest nonempty one and near enough |
| EditDistance.ChosenExactly | internal/lsp/code_actions.go:358-390 | nearest is measured without regard to case; a word of up to four bytes tolerates one edit, up to nine two, and a longer one three |
| EditDistance.LimitExactly | internal/lsp/code_actions.go:392-401 | the limit on the distance by the number of bytes of the word |
| EditDistance.BytesExactly | internal/lsp/code_actions.go:392-401 | bytes add up, and a character takes one to four of them as in UTF-8 |
| Formatter.ExtractMapSortKey | internal/format/formatter.go:214-243 | the first nonempty id, name, slug or key in document order, else the first nonempty scalar as a fallback that does not count as a key |
| FormatterProgram.EntitySortKey | internal/format/formatter.go:201-212 | only mappings have a sort key |
| Formatter.SortNodesIsSorted | internal/format/formatter.go:168-183 | the sort is an ordered permutation |
| Formatter.SortNodesFixpoint | internal/format/formatter.go:185-194 | sorting changes nothing exactly when the list is in order |
| FormatterOrder.KeyExactly | internal/format/formatter.go:214-243 | an element has a sort key exactly if an id, name, slug or key in any case holds a nonempty scalar, and it is the first of these in lower case |
| FormatterOrder.SortExactly | internal/format/formatter.go:168-199 | keyed elements come first, in the order of their keys; elements with equal keys, or without, keep their order |
| FormatterOrder.LeqExactly | internal/format/formatter.go:173-177 | keys are compared at their first difference |
| FormatterOrder.OrderExactly | internal/format/formatter.go:302-349 | the pairs of an object come out as the keys the fields name, in field order and each once, and then the other keys in their own order |
| FormatterOrder.ValuesExactly | internal/format/formatter.go:302-349 | every pair is still there, its value put in order by the first field of its name |
| FormatterOrder.NestedExactly | internal/format/formatter.go:364-387 | a field with fields of its own orders an object, and each object of a list if it is repeated; nothing else changes |
| FormatterOrder.RootExactly | internal/format/formatter.go:245-277 | the schema orders the elements of the items list if there is one, and else the root, whose type then comes first |
| FormatterProgram.SortEntitiesIsSortNodes | internal/format/formatter.go:168-183 | the comparison by key, line and index is the stable sort by key with unkeyed elements last |
| FormatterProgram.ApplyOnDocument | internal/format/formatter.go:89-107 | the recursion over the document performs the first pass |
| FormatterProgram.RewriteMapping | internal/format/formatter.go:109-128 | in place, every value of a mapping is rewritten and every items list sorted |
| FormatterProgram.ReorderItems | internal/format/formatter.go:138-199 | in place, the elements are rewritten and stably sorted |
| FormatterProgram.CollectEntities | internal/format/formatter.go:146-162 | the entities describe the rewritten elements in document order |
| FormatterProgram.PutBack | internal/format/formatter.go:185-198 | the sorted elements are stored back |
| FormatterProgram.TakePair | internal/format/formatter.go:351-362 | the first unused pair of the name is marked used |
| FormatterProgram.ReorderMappingWithSchema | internal/format/formatter.go:302-349 | the used flags produce the schema order: type first where kept, then the fields, then the rest in its own order |
| FormatterProgram.ApplyNestedSchema | internal/format/formatter.go:364-387 | nested schemas are applied to an object, or to each object of a repeated field |
| FormatterProgram.ApplySchemaOrdering | internal/format/formatter.go:245-277 | the schema applies to the elements of an items list if there is one, else to the root |
| FormatterProgram.FormatNode | internal/format/formatter.go:64-65 | one run is the sorting pass followed by the schema pass |
| Formatter.ReorderTwice | internal/format/formatter.go:89-199 | the sorting pass is idempotent |
| Formatter.ApplySchemaTwice | internal/format/formatter.go:245-387 | the schema pass is idempotent |
| Formatter.SchemaSurvives | internal/format/formatter.go:64-65 | a document in schema order stays in schema order under the sorting pass |
| Formatter.FormatConverges | internal/format/formatter.go:45-87 | for every document the third run changes nothing |
| FormatterRuns.OneRunIsEnough | internal/format/formatter.go:45-87 | the second run changes nothing exactly if the first left every items list in order |
| FormatterRuns.OneRunExactly | internal/format/formatter.go:45-87 | a condition on the document given: the second run changes nothing exactly if, in every items list the schema reaches, the sort keys before and after the schema order put every two elements in the same order |
| FormatterRuns.KeysSurviveEither | internal/format/formatter.go:64-65 | the schema order keeps every sort key of the document exactly if it keeps those of the sorted document |
| FormatterRuns.StableKeysNeedOneRun | internal/format/formatter.go:64-65 | the second run changes nothing when the schema order keeps the sort key of every element of the document given |
| FormatterRuns.OneRunCanBeTooFew | internal/format/formatter.go:64-65 | a document whose second run changes it |
| Formatter.FormatKeepsContent | internal/format/formatter.go:89-387 | pairs and elements are permuted at every depth, nothing lost or added |
| JsonText.ParseEncode | internal/format/formatter.go:389-484 | parsing the printed text by the grammar of sections 2 to 6 of RFC 8259 gives back the tree with its key order |
| JsonText.LayoutExactly | internal/format/formatter.go:389-484 | one member or element to a line, two spaces for each level, commas at line ends, empty braces and brackets on one line |
| JsonText.BareTokenExactly | internal/format/formatter.go:398-426 | a scalar other than a string is a literal name or a number by the grammar of section 6 of RFC 8259 |
| JsonText.EncodeJSON | internal/format/formatter.go:389-396 | the buffer ends up holding the printed text and a newline |
| JsonText.WriteJSONNode | internal/format/formatter.go:398-426 | appends the text of one node |
| JsonText.WriteJSONObject | internal/format/formatter.go:428-455 | appends the text of an object, members in order |
| JsonText.WriteJSONArray | internal/format/formatter.go:457-478 | appends the text of an array |
| JsonText.WriteIndent | internal/format/formatter.go:480-484 | appends two spaces for each level |
| JsonText.FormattedTextReads | internal/format/formatter.go:64-74 | formatting a JSON text gives a text that reads as the formatted tree |
| JsonText.FormatTextConverges | internal/format/formatter.go:45-74 | on texts too, the third run changes nothing |
| Inheritance.CycleCheck.Visit | internal/config/normalize.go:155-181 | three-colour visit: a reported chain is a closed parent chain, otherwise the type and its ancestors are done, parents first |
| Inheritance.ValidateInheritanceCycles | internal/config/normalize.go:140-195 | reports nothing exactly for an acyclic parent graph, and only genuine cycles |
| Inheritance.BuildInheritanceGraph | internal/config/normalize.go:108-138 | succeeds exactly if every named parent is a valid known type, and gives the parents |
| Inheritance.LineageIsUnique | internal/config/normalize.go:57-66 | a type has one chain of ancestors |
| Inheritance.Resolver.Resolve | internal/config/normalize.go:52-84 | the memoised resolution terminates and returns what the recursion without a memo would, whatever was resolved before |
| Inheritance.MergeInheritedFields | internal/config/normalize.go:334-354 | inherited fields, then local ones; redefining an inherited field is an error |
| Inheritance.MergedFields | internal/config/normalize.go:334-354 | the merged map and order agree, keep the inherited part and add the local part without repetition |
| Inheritance.NormalizeAggregate | internal/config/normalize.go:33-90 | a configuration comes out exactly if parents are known, the graph is acyclic, and every type is declared as its place in the tree demands; it holds for each type what its lineage resolves to; an error is true of the type it names |
| Inheritance.ChainExactly | internal/config/normalize.go:52-84 | a lineage resolves exactly if every level of it is declared right: identifier, fields, files or data, and no field of a level above |
| Inheritance.RefusalIsTrue | internal/config/normalize.go:197-354 | every error of a declaration names the type and is true of it |
| Inheritance.NamesExactly | internal/config/normalize.go:672-704 | exactly which texts are names of fields, of types and of identifier fields |
| Inheritance.DeclaresExactly | internal/config/normalize.go:197-298 | a type declares its own fields or those of its schema, and of fields of one name the last counts |
| Inheritance.ChildrenExactly | internal/config/normalize.go:108-138 | a type has children exactly if one names it as its parent |
| Inheritance.ConfigurationInherits | internal/config/normalize.go:33-90 | over a whole configuration: every type is its parent extended by its own fields in order, identifiers are those of the root, and only a root can repeat a field name |
| Inheritance.ChainInherits | internal/config/normalize.go:57-79 | a type has the ancestors of its chain, the identifier of its root, and the fields of every level in order |
| Inheritance.ResolvedIsConsistent | internal/config/normalize.go:77-79 | names, parents and ancestor lists of the result fit together |
| Inheritance.AncestorsNest | internal/config/normalize.go:77-79 | the i-th ancestor has exactly the first i ancestors |
| Inheritance.FirstAncestorIsRoot | internal/config/normalize.go:77-79 | the first ancestor is the root of the tree |
| Inheritance.IsA | internal/config/model.go:129-161 | the walk up the parents answers exactly whether the two are equal or the second is an ancestor of the first |
| Inheritance.DescendantTypes | internal/config/model.go:175-191 | the sorted duplicate-free inverse of the ancestor lists |
| Inheritance.AssignableTypes | internal/config/model.go:164-172 | the type itself followed by its descendants |
| Inheritance.TreeOfRoot | internal/data/load.go:258-272 | the types assignable to a root are exactly those with the same root |
| Includes.Loader.LoadRecursive | internal/config/load.go:42-107 | terminates; succeeds exactly for a loadable file and returns its entities, cache or not |
| Includes.Loader.LoadIncludes | internal/config/load.go:67-99 | the includes are loaded and merged in order |
| Includes.Aggregate.Merge | internal/config/load.go:109-133 | the union, unless versions differ or a name is defined twice |
| Includes.Aggregate.AddDocument | internal/config/load.go:135-178 | the own entities join, unless the version is missing or wrong or a name is empty or taken |
| Includes.Load | internal/config/load.go:20-40 | loading succeeds exactly if no reachable cycle, no unreadable file, no failing pattern and no name reached twice; the result is the union of the entities of all reachable files; an error is true of the file it names |
| Includes.ChildrenExactly | internal/config/load.go:67-99 | a file includes exactly the files that a pattern of it matches |
| Includes.MatchesFollow | internal/config/load.go:67-99 | files are included pattern by pattern, in the order of the matches of each |
| Includes.DocumentExactly | internal/config/load.go:42-178 | a file by itself is right exactly if it can be read, its patterns match, its version is 1 and its entities have names |
| Includes.OneChainPerDeclaringFile | internal/config/load.go:125-130 | in a loadable configuration each file with entities is reached by exactly one chain of includes |
| Includes.CycleIsNotLoadable | internal/config/load.go:47-49 | a file that leads back to itself is not loadable |
| Reload.NextInv | internal/workspace/overlays.go:72-204 | every step of edits, timer, flush, capture, install, snapshot and publish keeps the invariant |
| Reload.RunInv | internal/workspace/overlays.go:72-204 | in every interleaving: the timer is armed, or a started reload has yet to capture, or the newest capture has the current documents; all roots come from one capture |
| Reload.QuietStates | internal/workspace/overlays.go:158-204 | once all is quiet the newest capture took the current documents |
| Reload.QuietRootsExactly | internal/workspace/overlays.go:199-204 | in a quiet program the roots evaluate the capture installed last, and are current exactly if it took the last version of the documents (when captures of older versions evaluate differently) |
| Reload.QuietRootsAreCurrent | internal/workspace/overlays.go:199-204 | with installs in capture order, the quiet roots are those of the configuration, each evaluated with the current documents over what is on disk |
| Reload.QuietClientIsCurrent | internal/workspace/overlays.go:205-207 | with publishes in order as well, the client shows the diagnostics of every root evaluated with the current documents |
| Reload.QuietClientExactly | internal/workspace/overlays.go:199-207 | in a quiet program that has reloaded, the client shows the snapshot published last; it is current exactly if that snapshot follows the install of a capture of the last version and has the last documents (when other snapshots show something else) |
| Reload.OneAtATimeIsCurrent | internal/workspace/overlays.go:158-209 | reloads that never overlap satisfy both conditions |
| Reload.LateInstallIsStale | internal/workspace/overlays.go:167-204 | an overlapping reload that installs last leaves a quiet program with stale roots |
| Reload.LatePublishIsStale | internal/workspace/overlays.go:205-207 | installs in order do not suffice: a late publish leaves stale diagnostics |
| Reload.Runtime.DidOpen | internal/workspace/overlays.go:73-82 | stores the document and arms the timer, an edit step |
| Reload.Runtime.DidChange | internal/workspace/overlays.go:85-96 | changes an open document and arms the timer; refuses one that is not open and changes nothing |
| Reload.Runtime.DidClose | internal/workspace/overlays.go:99-104 | removes the document and arms the timer |
| Reload.Runtime.CaptureDocuments | internal/workspace/overlays.go:168-171 | copies the documents, a capture step |
| Reload.Runtime.ComputeRoots | internal/workspace/overlays.go:175-197 | exactly the configured roots, each evaluated with the captured documents over what is on disk |
| Reload.Runtime.InstallRoots | internal/workspace/overlays.go:199-204 | stores every computed root over the ones there were, an install step |
| Reload.Runtime.TakeSnapshot | internal/workspace/overlays.go:142-149 | copies roots and documents together |
| Reload.Runtime.FlushReload | internal/workspace/overlays.go:107-115 | with nothing in between, stops the timer and leaves every configured root evaluated with the open documents over what is on disk |
| Reload.Runtime.TimerReload | internal/workspace/overlays.go:158-204 | with nothing in between, a timer that fires leaves every configured root evaluated with the open documents over what is on disk |
| Publish.CollectRootDiagnostics | internal/lsp/diagnostics.go:117-138 | a validated root contributes its located errors in order, otherwise its load error |
| Publish.CollectSnapshotDiagnostics | internal/lsp/diagnostics.go:91-115 | every located diagnostic of every root appears once, under its path, and no path is empty |
| Publish.ReportsExactly | internal/lsp/diagnostics.go:117-138 | a validated root shows its errors, a root that did not load its load error, a clean one nothing; roots follow one another |
| Publish.DiagnosticsExactly | internal/lsp/diagnostics.go:119-138 | a path shows the diagnostics located there, in order, and no others |
| Publish.VersionExactly | internal/lsp/diagnostics.go:643-648 | the version sent with a path is that of its open document, and zero without one or below zero |
| Publish.Server.SendAll | internal/lsp/diagnostics.go:64-69 | if all sends succeed every path shows its notification and is recorded as published; otherwise each path shows what it did or what was wanted, and none that shows something is forgotten |
| Publish.Server.ClearOthers | internal/lsp/diagnostics.go:70-84 | if all sends succeed exactly the paths with diagnostics stay published and the others are cleared; otherwise none that shows something is forgotten |
| Publish.Server.PublishWorkspaceDiagnostics | internal/lsp/diagnostics.go:52-87 | a completed publish leaves the client showing exactly the diagnostics of the snapshot and publishedPaths their paths; every publish, completed or stopped, forgets no path that shows something |
| StoreFiles.EncodeDecode | internal/data/fileio.go:127-182 | a written file reads back as its items, or as its object if that has no items field |
| StoreFields.WritesExactly | internal/data/fileio.go:127-163 | a file with a list holds the type and the items, a file with one object the object and its type |
| StoreFiles.ItemsReadBack | internal/data/util.go:39-54 | a written items list reads back as the same objects |
| StoreReading.SelectorReadsExactly | internal/data/fileio.go:85-106 | what a selector picks loads exactly if every value is an object that declares no other type and has an identifier; then each is listed in order, without the keys of the store |
| StoreReading.FileReadsExactly | internal/data/fileio.go:16-64 | a whole file is read exactly if it is a document of the type whose object or items have identifiers, and lists exactly these |
| StoreReading.ItemsExactly | internal/data/load.go:62-88 | items load exactly if each has an identifier, and then as they are |
| StoreReading.FilesExactly | internal/data/load.go:298-343 | a type reads each file once through each include that matches it, in the order of includes and then of paths |
| StoreReading.FilesLoadExactly | internal/data/load.go:49-102 | files load exactly if each does, and their objects follow one another |
| StoreReading.InlineExactly | internal/data/load.go:104-122 | inline objects are listed in order, those whose identifier is already there left out |
| StoreReading.TypeLoadsExactly | internal/data/load.go:43-125 | a type loads exactly if each of its files does and its inline objects have identifiers |
| StoreReading.TypeListsExactly | internal/data/load.go:43-125 | its listing is the objects file by file and then the inline objects that are new |
| StoreReading.NamesLoadExactly | internal/data/load.go:17-41 | types listed together are an error exactly if two share an identifier |
| StoreReading.LoadAllExactly | internal/data/load.go:17-41 | the objects of a type and of those below it load exactly if each type does and no two share an identifier, listed type by type |
| StoreFiles.FindInTypeAgrees | internal/data/load.go:157-242 | searching a type finds what loading it lists first under the identifier, files before inline data |
| StoreFiles.FindInTypesAgrees | internal/data/load.go:139-155 | searching several types agrees with loading them all |
| StoreOps.GetAgreesWithLoadAll | internal/data/store_ops.go:49-131 | whenever LoadAll succeeds, Get succeeds exactly for the identifiers listed and returns the first object under each, but for the read-only mark of inline objects |
| StoreOps.WritableAt | internal/data/store_ops.go:246-261 | what an update or delete writes to is an object of a file that its type reads without a selector |
| StoreListings.DeleteRemovesOne | internal/data/store_ops.go:322-359 | a delete removes exactly the object found from the listing of its type, keeps the order of the rest, and touches no other type |
| StoreListings.UpdateReplacesExactly | internal/data/store_ops.go:236-319 | an update replaces exactly the object found, keeping its place, if and only if it does not give an object alone in its file an items field |
| StoreListings.CreateAddsExactly | internal/data/store_ops.go:153-233 | a create adds exactly the new object if and only if its type reads the target file and the target can receive it |
| StoreRefinement.CreateSucceeds | internal/data/store_ops.go:153-178 | a create succeeds exactly if the identifier is new to the whole inheritance tree, there is a target, and what is at the target can be read |
| StoreRefinement.CreateRefines | internal/data/store_ops.go:153-233 | on the map from type and identifier to fields a create binds the new identifier and nothing else; identifiers stay unique |
| StoreFields.CreateSets | internal/data/store_ops.go:153-186 | after a create exactly the fields given are there, without type, Type and $path, and the identifier, as text if it is declared as text |
| StoreFields.CreateRefuses | internal/data/store_ops.go:153-178 | what a create answers: unknown type, missing identifier, one taken in the inheritance tree, no target, or what is wrong with the target |
| StoreFields.CreateWritesExactly | internal/data/store_ops.go:188-220 | a new object is written alone to a file of its own and behind the others to a file with a list |
| StoreFields.TargetExactly | internal/data/fileio.go:191-232 | a new object goes to the first writable pattern with a wildcard, its name in place of each, or else to the first writable path |
| StoreFields.IdExactly | internal/data/identifier.go:29-80 | the identifier is the nonempty text or number under the identifier field |
| StoreRefinement.UpdateRefines | internal/data/store_ops.go:236-319 | an update rebinds the identifier to the merged or replaced fields and nothing else |
| StoreFields.UpdateSets | internal/data/store_ops.go:264-277 | after a merge every path that the new fields spare is as before and every path they set is set; after a replace exactly the new fields are there; either way the identifier is, and no key of the store |
| StoreRefinement.DeleteRefines | internal/data/store_ops.go:322-359 | a delete unbinds the identifier, unless inline data has it too and now shows |
| StoreFields.DeleteTakesFile | internal/data/store_ops.go:333-358 | a file goes with its last object and stays with the others; no other file changes |
| StoreRefinement.GetRefines | internal/data/store_ops.go:49-81 | a get finds exactly what some assignable type binds, with its fields |
| StoreFields.GetExactly | internal/data/store_ops.go:49-81 | what a get answers: missing identifier, unknown type, the object if some assignable type binds it, else not found |
| StoreRefinement.WritableIsBound | internal/data/store_ops.go:246-258 | an object can be written exactly if it is the first under its identifier and neither inline nor read through a selector |
| StoreFields.WritableExactly | internal/data/store_ops.go:246-261 | what an update or delete is refused for: not found, inline, or read through a selector, by the first object listed |
| StoreFields.RefusalsAreShared | internal/data/store_ops.go:236-359 | update and delete refuse the same, with the same errors |
| StoreRefinement.RunRefines | internal/data/store_ops.go:153-359 | over every run of operations the store stays healthy and stands for the map that the successful operations build |
| StoreListings.SanitizeCollides | internal/data/util.go:173-187 | exactly which identifiers get the same file name |
| StoreFields.NamesExactly | internal/data/util.go:173-187 | letters, digits, dashes, underscores and dots stay, everything else becomes a dash, and an empty name is object |
| StoreListings.CollidingCreateOverwrites | internal/data/store_ops.go:218 | of two creates whose identifiers share a file name, the second replaces the first object |
| StoreWitnesses.LostInBareFile | internal/data/fileio.go:191-232 | in a sound store with one bare object in a literal file, a create succeeds and the new object is not found |
| StoreWitnesses.LostInUnreadFile | internal/data/fileio.go:191-232 | under a pattern with a class of characters, a create succeeds and the new object is not found |
| StoreWitnesses.MisreadItems | internal/data/store_ops.go:153-233 | an object created with an items field is not found, and the object inside that field is |
| StoreWitnesses.SecondOverwrites | internal/data/store_ops.go:218 | in an empty store, which is sound: of two creates whose identifiers share a file name both succeed, and the first object is gone |
| StoreWitnesses.SlashAndColon | internal/data/util.go:173-187 | a slash and a colon in an identifier share a file name |
| StoreWitnesses.SpoiledByItems | internal/data/store_ops.go:236-319 | an update that adds an items field succeeds and loses the object it updates |
| StoreWitnesses.DeleteUncovers | internal/data/store_ops.go:322-359 | after a delete the inline object of the same identifier is found |
| StoreOps.MergeTwice | internal/data/util.go:137-158 | merging the same fields again changes nothing, and merging nothing changes nothing |
| StoreOps.MergeSets | internal/data/util.go:137-158 | a merge sets every path at which the new fields hold no object |
| StoreOps.MergeKeeps | internal/data/util.go:137-158 | a merge keeps every path that the new fields do not reach |
| StoreFields.MergeSpares | internal/data/util.go:137-158 | a merge leaves every path as it was that the new fields spare, there or not |
| StoreFields.MergeKeepsObjects | internal/data/util.go:137-158 | where the new fields hold an object there is one after the merge |
| Store.MergeMaps | internal/data/util.go:137-158 | key by key in any order, the merge is the specified one |
| Store.SanitizeFilename | internal/data/util.go:173-187 | character by character, everything but letters, digits, dash, underscore and dot becomes a dash |
| Store.ChooseCreateTarget | internal/data/fileio.go:191-232 | the first writable pattern with a wildcard, failing that the first literal path |
| Store.Store.ResolveIncludeMatches | internal/data/load.go:298-343 | the matched files in include order, each include once |
| Store.Store.LoadExactAll | internal/data/load.go:43-125 | file objects, then inline objects whose identifier no file has |
| Store.Store.LoadAllObjects | internal/data/load.go:17-41 | objects of the type and those below it; an identifier that two types declare is an error |
| Store.Store.FindObjectInType | internal/data/load.go:157-242 | the first object under the identifier, file by file, item by item, then inline |
| Store.Store.FindObjectInTypes | internal/data/load.go:139-155 | every type is searched and a second find is an error |
| Store.Store.GetObject | internal/data/store_ops.go:49-81 | the lookup by identifier with its errors |
| Store.Store.List | internal/data/store_ops.go:12-30 | sorted, one entry for each object, exactly the loaded identifiers |
| Store.Store.CreateObject | internal/data/store_ops.go:153-233 | the files after a create, or the error with the files unchanged |
| Store.Store.UpdateObject | internal/data/store_ops.go:236-319 | the files after an update, or the error with the files unchanged |
| Store.Store.DeleteObject | internal/data/store_ops.go:322-359 | the files after a delete, or the error with the files unchanged |
| FieldRules.ValidateField | internal/validation/schema.go:242-290 | no problem exactly for a value that obeys the rule, with defaults, required marks and repeated items; a problem is true of the value |
| FieldRules.ValidateFieldValue | internal/validation/field.go:24-94 | no problem exactly for a value of the right kind, to every depth of nested objects |
| FieldRules.ValidateProperties | internal/validation/field.go:81-86 | no problem exactly if every property obeys its rule, whatever the order of visiting |
| FieldRules.EnforceStringConstraints | internal/validation/field.go:96-134 | no problem exactly for a text that matches pattern and format |
| FieldRules.NullsConflict | internal/validation/schema.go:118-138 | a null written out is checked like a missing field but takes part in uniqueness, and equal texts of different kinds conflict |
| RecordRules.ConflictsExactly | internal/validation/schema.go:217-240 | two values of a unique field conflict exactly if they are written alike: equal nonempty texts or number tokens, equal booleans, equal JSON of lists and maps, two nulls, and the pairs across kinds |
| RecordRules.OthersDoNotConflict | internal/validation/schema.go:118-138 | a field that is absent or need not be unique conflicts with nothing |
| RecordRules.TextsConflictExactly | internal/validation/schema.go:217-240 | two texts conflict exactly if they are one nonempty text, two booleans exactly if they are equal |
| RecordRules.RecordsAreRightExactly | internal/validation/schema.go:46-145 | the records of a type are free of faults exactly if each is right and any two differ in identifier and in every unique field |
| RecordRules.IdentifierExactly | internal/validation/util.go:54-70 | which identifier a record has, and what a pattern asks of it |
| RecordRules.ReferencesExactly | internal/validation/field.go:177-202 | which identifiers a reference field refers to, repeated or not |
| RecordRules.PhasesExactly | internal/validation/validate.go:18-34 | no phases means all of them, and references bring the schema with them |
| Validation.ValidateFields | internal/validation/schema.go:111-140 | no fault exactly if every field obeys its rule and no unique value was seen; the seen values grow by those of the record; faults name the record and what is wrong with it |
| Validation.TypeOkStep | internal/validation/schema.go:46-145 | one more record keeps a type right exactly if it is right itself and repeats nothing |
| Validation.SchemaIndex.ValidateTypeSchema | internal/validation/schema.go:35-148 | no fault exactly if the records of the type are right, identifiers distinct and unique fields disjoint; then the index holds exactly the records; every fault is one of a record of the type |
| Validation.SchemaIndex.RecordFault | internal/validation/schema.go:48-107 | the checks of a record before its fields |
| Validation.SchemaIndex.AddObject | internal/validation/schema.go:169-199 | an object is listed under its type and every ancestor, with a fault exactly if its identifier is taken in its tree |
| Validation.SchemaIndex.BuildAssignableIndex | internal/validation/schema.go:150-203 | each type and identifier lists exactly the objects of assignable types, each once; no fault exactly if no tree repeats an identifier |
| Validation.SchemaIndex.ValidateSchema | internal/validation/schema.go:11-33 | no fault exactly if all records are right and identifiers are unique across each inheritance tree |
| Validation.CommonAncestor | internal/validation/schema.go:175-199 | two types are assignable to a common type exactly when they are of one tree |
| Validation.SchemaIndex.ResolveReferenceTypes | internal/validation/references.go:64-77 | exactly the types of the list below which some record has the identifier |
| Validation.OneMatch | internal/validation/references.go:36-55 | one match means that the identifier resolves at exactly one place of the list |
| Validation.SchemaIndex.RecordReferences | internal/validation/references.go:25-57 | no fault exactly if every reference of the record resolves in exactly one of its field types |
| Validation.SchemaIndex.ValidateReferences | internal/validation/references.go:10-62 | no fault exactly if every top-level reference of every record does |
| Validation.ValidateWithOps | internal/validation/validate.go:18-66 | with all phases on, no fault exactly if files were readable, every record obeys its schema and every reference resolves; the exact outcome for every set of phases; at most one fault when failing fast |
| Validation.SilenceMisleadsExactly | internal/validation/validate.go:18-66 | where something was to be found by the phases asked for, nothing is reported exactly if a file was unreadable and the files were not to be checked |
| Validation.UnreadableFileMutes | internal/validation/validate.go:35-52 | a record that breaks the schema is not reported when only the schema was to be checked and another file is unreadable |
| Validation.SatisfiedIsSilent | internal/validation/validate.go:18-66 | what satisfies the phases asked for is never reported |
| SchemaExport.AppendFieldSchema | internal/cli/config.go:144-195 | a field can be exported exactly if it holds no reference union, and its schema says what the field says |
| SchemaRoundTrip.ExportSays | internal/cli/config.go:144-195 | what an exported schema says of its field: type, choices, properties, required names and reference of one value, in an array if repeated, with description and read-only mark |
| SchemaRoundTrip.DocumentSays | internal/cli/config.go:101-142 | an exported document has its dialect, type, properties and, only where there are any, description and required names |
| SchemaRoundTrip.UnionsExactly | internal/cli/config.go:168-175 | a field cannot be exported exactly if it refers to several types, itself or in a property |
| SchemaExport.BuildJSONSchema | internal/cli/config.go:101-142 | an object schema with every property and exactly the required names |
| SchemaImport.ResolveSchemaMap | internal/config/jsonschema.go:219-243 | key by key in any order, a schema given by a reference is its target with its own keys over it |
| SchemaImport.ExtractOneOf | internal/config/jsonschema.go:370-411 | one choice for each option, references followed, with the first error in order |
| SchemaImport.ConvertObjectProperties | internal/config/jsonschema.go:56-114 | reads the properties in sorted order with their required marks |
| SchemaImport.BuildFieldDefinition | internal/config/jsonschema.go:116-217 | reads one field: reference, choices, scalar, object or array |
| SchemaImport.LoadJSONSchemaFields | internal/config/jsonschema.go:13-54 | reads a whole document, which may itself be given by a reference |
| SchemaImport.InlinedReads | internal/config/jsonschema.go:116-243 | a schema reads as it does with every reference in it replaced by what it stands for |
| SchemaImport.MoreFuel | internal/config/jsonschema.go:116-217 | the bound on the depth never changes an answer |
| SchemaImport.RefFreeReads | internal/config/jsonschema.go:116-217 | a schema without references reads the same in every document |
| SchemaImport.ExportReadsBack | internal/config/jsonschema.go:116-217 | the importer, in any document, gives back an exported field exactly if choices are nonempty, texts trimmed and names identifiers, at every depth |
| SchemaImport.ExportedDocumentReadsBack | internal/config/jsonschema.go:13-54 | the importer gives back every field of an exported document, sorted, under the same condition |
| SchemaRoundTrip.FullReadsBack | internal/config/jsonschema.go:116-217 | in any document the importer gives back a field written with all that a schema can say: type, choices, properties, format, pattern, description and default; format and pattern of an array are those of its items |
| SchemaRoundTrip.MergedExactly | internal/config/jsonschema.go:219-243 | a schema given by a reference has the keys of its target and, over them, its own |
| SchemaRoundTrip.TypeExactly | internal/config/jsonschema.go:320-349 | a type is a text or a list with one text besides null |
| SchemaRoundTrip.ChoicesExactly | internal/config/jsonschema.go:351-411 | choices come from the options of a oneOf list, else from a constant, else from an enumeration |
| SchemaRoundTrip.TrimExactly | internal/config/jsonschema.go:413-416 | trimming takes blanks off both ends |
| SchemaRoundTrip.PropertiesExactly | internal/config/jsonschema.go:56-114 | properties are read exactly if each has a valid name and a schema that can be read, and every required name is one of them; each comes out as its schema reads, with its mark, in sorted order |
| SchemaRoundTrip.TypeRefusals | internal/config/jsonschema.go:139-217 | a schema without a type, with an unknown one, an array without items and an object without properties are refused, each with its error |
| SchemaRoundTrip.LabelRefusals | internal/config/jsonschema.go:116-217 | a reference to other objects is taken if it names one type and refused if it names several |
| SchemaRoundTrip.ReferenceRefusals | internal/config/jsonschema.go:219-243 | a reference that leads nowhere, or to something that is no schema, is refused |
| SchemaRoundTrip.DocumentExactly | internal/config/jsonschema.go:13-54 | a document is read as an object, and refused if it names another type or is none |
| SchemaExport.PropertyReadsBack | internal/config/jsonschema.go:116-217 | reading an exported field gives back type, repetition, choices, properties, description and reference if and only if choices are nonempty, texts trimmed and names identifiers, at every depth |
| SchemaExport.DocumentReadsBack | internal/config/jsonschema.go:45-114 | reading an exported document gives back every field, sorted, under the same condition |
| SchemaExport.EmptyEnumIsText | internal/cli/config.go:154-158 | an enumeration without choices comes back as plain text |
| JsonPointer.ResolveJSONPointer | internal/config/jsonschema.go:245-287 | the loop over the segments resolves the reference |
| JsonPointer.UnescapeEscape | internal/config/jsonschema.go:267 | the two replacements undo the escaping of section 3 of RFC 6901, for every text |
| JsonPointer.SplitPointer | internal/config/jsonschema.go:261 | splitting a pointer gives back its tokens |
| JsonPointer.ResolvePointer | internal/config/jsonschema.go:245-287 | the pointer to a path of nonempty keys and indices resolves to the node at that path, and fails if there is none |
| JsonPointer.PointerReaches | internal/config/jsonschema.go:245-287 | for every document and path the pointer leads exactly where the tokens other than empty keys do |
| JsonPointer.SegmentExactly | internal/config/jsonschema.go:245-287 | where one segment leads, and the error where it leads nowhere |
| JsonPointer.AtoiExactly | internal/config/jsonschema.go:272-280 | an index is a text of digits with an optional sign; zeros in front do not matter |
| JsonPointer.EmptyKeysAreSkipped | internal/config/jsonschema.go:264-266 | empty keys cannot be pointed at, wherever they stand: the pointer resolves as if they were not in the path |

## Left out

- Decoding YAML and JSON, and with it anchors, aliases, comments and number formats; documents are trees. Line numbers of elements are taken to grow along the document.
- `json.Marshal` of scalars: a scalar is its token. Values that cannot be marshalled do not reach the diff, because building the database has already refused them, so its error returns are not modelled.
- Reading snapshots from Git, and deriving identifiers of snapshot records: building a database starts from the records of each file.
- Real directories, globbing, path cleaning and failing writes: the file system is a finite map and the matching of a pattern a predicate.
- Path identifiers (`$path`) and fields derived from paths, with their checks.
- Identifiers of integer or number type: their coercion is not modelled, the given value is kept.
- Sorting by the standard library: a sort is the sorted permutation, stable where the program asks for it.
- Wording of errors: an error is a value of its kind. Where maps are visited in any order, contracts say when there is an error, not which comes first.
- FormatterProgram.ReorderMappingWithSchema: works on the pairs as a value and returns the new content; below the level at hand nested nodes are values, so sharing of nodes is not captured.
- Printing YAML text after formatting: only the JSON printer is modelled.
- JsonText.ParseEncode: literal names and numbers are read by their grammar (`BareTokenExactly`); what stands between the quotes of a string (section 7 of RFC 8259) is a codec assumed faithful.
- SchemaImport.BuildFieldDefinition: the program has no bound on how deep references nest; here fuel bounds it, with an error of its own when it runs out.
- SchemaImport.ExportReadsBack: format, pattern, default and uniqueness are not exported by the program and come back empty.
- Publish.Server.PublishWorkspaceDiagnostics: a notification that reached the client although the sender saw an error is recorded as lost, and the statements exclude its path until it is published again. A server without runtime or publisher publishes nothing and is not modelled.
- Reload.Runtime.TimerReload: the flag says whether a reload is still to come and is cleared when the timer fires, where the program keeps the spent timer and only ever stops it. The hook after a reload is taken to be set, so it always runs.
- Reload.Runtime.FlushReload: the class takes one step per locked section; interleavings are those of the step relation, and publishing in it always succeeds (failures are in Publish).
- Reload.Runtime.DidOpen: a document is its text; language, version and the refusal of a missing document are not modelled.
- Includes.Loader.LoadRecursive: aggregates in the cache are values; the program shares them but does not change them afterwards.
- Inheritance.NormalizeAggregate: normalisation of single fields, write templates and the check of field references are not part of this model.
- Validation.SchemaIndex.ValidateTypeSchema: the identifier found for a record is looked up again by the reference phase instead of being stored in the record. Collecting the records from files is not modelled.
- References nested inside objects, which the program does not check either.
- EditDistance: positions are characters; the limit on the distance counts the bytes of the word as the program does.
- The command line, the language server transport, completion, hover, code actions other than the choice of a candidate, diagrams and the editor extension: plumbing.
