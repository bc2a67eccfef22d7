# Verified model of the Tier-1 spec pipeline

The repository turns published OpenAPI specifications and Postman collections into typed Python
bindings and plugin stubs. The four tools under `tools/` that do this are modelled here, together with
the two hand-written modules the generated code runs on (`generated/_base.py` and
`resources/generated/_stub.py`). Recursive and expression code is modelled as functions; code that
updates state in place is modelled as methods and classes proved against those functions.

## What is modelled

**From schemas to models** (`tools/gen_models.py`)

- `json_values.dfy`, `text.dfy`: JSON documents with ordered keys, their nesting depth and their
  order-insensitive markers (`json.dumps(sort_keys=True)`); joins, splits, decimals, string order.
- `naming.dfy`, `snake_words.dfy`: identifier sanitizing, the words it finds in a name, and fresh names.
- `map_blocks.dfy`: data-keyed `properties` blocks and the merge of their example schemas.
- `wire_types.dfy`, `schema_keywords.dfy`: the pure recursive meaning of a schema, `TypeOf`, and what each
  keyword of a schema contributes to it.
- `settling.dfy`, `exact_cache.dfy`, `cache_counterexample.dfy`: when one cache key has one type, exactly,
  and two schemas one key covers although they mean different types.
- `class_table.dfy`, `emission_bounds.dfy`, `emitter.dfy`: type expressions, the ordered class table, how an
  expression unfolds through it, and `ModelEmitter` as a class with its memo cache, its set of taken names
  and the only ways it can run out of them.
- `acceptance.dfy`, `inference.dfy`, `inferred_types.dfy`: which documents a type accepts on the wire, schema
  inference from examples, and exactly what an inferred type accepts.
- `folding.dfy`, `aliases.dfy`: folding text to one plain line, and the alias a field is emitted with, which
  is its folded wire name.
- `coercion.dfy`, `alias_table.dfy`, `validation.dfy`: validating a payload into the emitted models by
  alias or Python name with the coercions of lax validation, dumping it by alias, and when emitted models
  validate what their schemas document; `model_counterexamples.dfy`: payloads they change or refuse.
- `literals.dfy`, `wrapping.dfy`, `plain_literals.dfy`: printing and reading Python string literals, and
  wrapping prose into implicitly concatenated literals inside 100 columns, escaped in one tool and
  inserted as it is in the other.
- `signature.dfy`, `signature_lines.dfy`: a binding's signature as one tool prints it and the other scans it,
  and what its lines say beyond the names.
- `slugs.dfy`: module names of operations.

**From endpoints to plugin stubs** (`tools/gen_plugin.py`)

- `stub_calls.dfy`, `ref_params.dfy`: the table of values an instance's name must carry, the lookups an
  emitted call makes, and the parser that reads the name when the stub is used.
- `stub.dfy`, `compensation.dfy`, `stub_program.dfy`: which stub an endpoint gets, its `fetch`, `apply`
  and `rollback` over an abstract server with running and saved state, when a transaction restores that
  server, and the emitted class run against it.

**Specification and collection upkeep** (`tools/spec_sync.py`, `tools/postman_sync.py`)

- `urls.dfy`, `sanitizing.dfy`, `sanitized_fields.dfy`: splitting a URL, replacing every deployment host of a
  specification, and what the result holds and reports.
- `baselines.dfy`: the directory that keeps one baseline per target, over every run of updates.
- `ordering.dfy`, `spec_diff.dfy`: endpoint and schema indices, their exact deltas, and the report.
- `folders.dfy`, `release_entries.dfy`, `release_fold.dfy`: the walk over folder parents, what is kept of
  one release, and the fold over releases.

## Where the code and its promises part

Each of these is stated as a lemma; the code is modelled as it is.

- The memo cache ignores key order, but the merge of map-block examples lets the first spelling of a
  shared property win. Two schemas with one cache key can therefore mean different types, and the
  emitter gives the second the first one's class (`EmitBoth`). Where no merge is a mapping with two keys or
  more, one key has one type exactly if all spellings of every name that decides a merge's type mean the
  same (`OneTypeIffSettled`); for such mappings agreement up to key order suffices. The emitter is exact on
  all schemas settled in this sense. The merge itself is independent of order and duplication exactly when
  the examples agree on every shared property (`MergeOrderFreeIffAgree`).
- The wire name of a renamed field is to round-trip exactly through its alias, but the alias is printed
  folded: white space is trimmed and collapsed, and typographic punctuation replaced. The aliases of a
  record are its wire names exactly when each of those is plain text in that sense (`AliasesKeptIff`,
  `FoldFixesIff`). A required field of another name is never found under it (`RequiredIsFoundIff`), and
  names that fold alike share one alias, so a model can refuse the evidence it was inferred from
  (`FoldedEvidenceIsRefused`).
- `populate_by_name` lets a payload key that happens to be a field's Python name fill that field, and lax
  validation turns numbers into text and other scalars into the field's kind. A payload survives loading
  and dumping exactly when it is already in the model's own form (`LoadDumpIffNative`). A document accepted
  on the wire validates exactly when what its fields read under other names fits them
  (`AcceptedValidatesIff`), which evidence with a key that shadows a field need not
  (`ShadowedEvidenceIsRefused`).
- A compensable stub reduces a scalar to "absent", and its snapshot is what the read model makes of the
  instance. A transaction restores the server exactly for the instances that are objects or lists in the
  read model's own form, or absent ones with a paired DELETE, apart from transactions that touch nothing
  and, on an appliance, only where nothing was pending before (`TransactionRestoresIff`); scalars are
  removed with success reported (`ScalarStateIsLost`) and coerced numbers come back as text
  (`CoercedStateIsChanged`).
- A literal assignment inserts text unescaped, so it assigns the text exactly when nothing in it needs
  escaping (`AssignmentReadsBackIff`).
- A GET whose binding demands a body is still called without one, so the emitted call is incomplete in
  exactly that case (`CallCompleteIffBodyPassed`) and fetching raises.
- A child folder's path extends its parent's exactly when the child is not among the parent's own
  ancestors and the chain fits sixteen names (`PathLawIff`).
- The digest suffix keeps module names apart only where no unsuffixed name spells a suffixed one
  (`SlugsDistinctIff`, with an instance where it does in `DigestsCanBeMimicked`).
- With one parameter, a value holding both an equals sign and a comma cannot be named by any ref
  (`NameableIff`).
- An update interrupted between writing the new baseline and removing the old one leaves two, and every
  later update of that target is refused (`InterruptionSticks`).

## Model

| member | source | states |
|---|---|---|
| Naming.SnakeCaseCanonical | tools/gen_models.py:204-209 | for every string the result is empty or runs of lowercase letters and digits joined by single underscores |
| Naming.SnakeCaseFixesCanonical | tools/gen_models.py:204-209 | a string already in that form is left as it is |
| Naming.SnakeCaseIdempotent | tools/gen_models.py:204-209 | sanitizing twice is sanitizing once |
| SnakeWords.PassesBreak | tools/gen_models.py:186-209 | the two greedy camel-case substitutions together put an underscore before every new word of a text of letters, digits and underscores, and nowhere else |
| SnakeWords.SnakeCaseIsWords | tools/gen_models.py:204-209 | sanitizing a name joins its lowercased words by underscores, a word ending where punctuation, a capitalized word or a capital after a lowercase letter or digit begins |
| SnakeWords.CamelCaseIsWords | tools/gen_models.py:212-214 | camel case capitalizes each of those words |
| SnakeWords.FieldNameFrom | tools/gen_models.py:217-231 | a legal sanitized name is kept; an empty one becomes `field`, one that starts with a digit gets `field_` before it, a reserved one an underscore behind it |
| SnakeWords.ClassNameFrom | tools/gen_models.py:241-253 | capitalized words that are a class name are kept; `Node` goes before an empty name or a digit and behind a keyword |
| Naming.PythonFieldNameLegal | tools/gen_models.py:217-231 | every wire name becomes a snake-case identifier that is no keyword, no pydantic attribute and not `self` |
| Naming.PythonClassNameLegal | tools/gen_models.py:241-253 | every hint becomes an identifier with a capital first letter that is no keyword |
| Naming.Dedupe | tools/gen_models.py:256-266 | the result is the first of name, name_2, ... name_999 not taken, and is now taken; it fails iff all are taken |
| Naming.CandidateInjective | tools/gen_models.py:256-266 | different suffixes give different names |
| Naming.ExhaustedIsCrowded | tools/gen_models.py:256-266 | disambiguation fails only with at least 999 names taken |
| Naming.FreshFieldLegal | tools/gen_models.py:625-636 | a disambiguated field name is still legal and is not taken |
| Naming.FreshClassLegal | tools/gen_models.py:663-663 | a disambiguated class name is still legal and is not taken |
| MapBlocks.UnifyMapValues | tools/gen_models.py:446-472 | the loop over distinct examples computes the merge function |
| MapBlocks.UnifyDepth | tools/gen_models.py:446-472 | the merged schema, which is no subterm of the block, is no deeper than the deepest example |
| MapBlocks.UnifyValid | tools/gen_models.py:446-472 | merging documents without repeated keys gives one without repeated keys |
| MapBlocks.UnifyByMarkers | tools/gen_models.py:446-472 | example lists with the same set of markers merge to the same marker when the examples agree on shared properties |
| MapBlocks.FirstSpellingWins | tools/gen_models.py:463-470 | an example put first decides every property it has, whatever the others say |
| MapBlocks.MergeOrderFreeIffAgree | tools/gen_models.py:446-472 | the merge is blind to order and duplication iff the examples agree on every shared property |
| MapBlocks.MapKeyIff | tools/gen_models.py:402-431 | a name is data iff it is not empty and all digits, starts with or ends in an angle bracket, spells an appliance key of two groups, or four groups of one to three digits |
| MapBlocks.UnifyCases | tools/gen_models.py:446-472 | equal examples unify to the first; different ones, some without properties, to nothing known; and else to a sorted record of exactly the names any of them has |
| WireTypes.ChildDepth | tools/gen_models.py:573-598 | every schema the emitter recurses into, the merged one included, is strictly shallower than its block, so emission terminates |
| WireTypes.ClassifyByMarker | tools/gen_models.py:434-443 | schemas that differ in key order only are the same kind of node with the same parts |
| WireTypes.TypeByMarker | tools/gen_models.py:606-620 | agreeing schemas with one cache marker mean one type, with the same required flags |
| SchemaKeywords.ScalarKeywords | tools/gen_models.py:178-183 | each of the four scalar keywords takes exactly the JSON values of its kind, an integer also serving as a number |
| SchemaKeywords.DataKeysMakeMapping | tools/gen_models.py:581-586 | a property list of data keys alone means a mapping to the unified example |
| SchemaKeywords.OtherKeysMakeRecord | tools/gen_models.py:587-637 | any other property list means a record of the names that are not data, each of its own schema's type, required iff not everything is optional and the document's `required` list holds the name |
| SchemaKeywords.DemandedIsRequired | tools/gen_models.py:622-637 | a document without a name its request schema demands is refused |
| SchemaKeywords.WithoutProperties | tools/gen_models.py:591-600 | without a property list, `additionalProperties` decides what is mapped to, and else whether it is a mapping at all |
| ClassTable.RenderTellsApart | tools/gen_models.py:536-541 | the rendered text of an expression tells "Any", scalars, classes and composites apart, which is what the emitter inspects |
| ClassTable.RenderReadsBack | tools/gen_models.py:573-600 | reading a rendered annotation as Python does gives the expression back, so no two expressions are spelled alike |
| ClassTable.UnfoldStable | tools/gen_models.py:663-680 | appending classes to a well-formed table changes what no earlier expression means |
| ClassTable.TableNames | tools/gen_models.py:663-680 | class names are pairwise distinct and no module symbol or scalar, and a class mentions only classes appended strictly earlier |
| ClassTable.FieldNamesSound | tools/gen_models.py:622-655 | field names of an emitted record are legal and pairwise distinct |
| Settling.SettledByMarker | tools/gen_models.py:606-620 | a settled schema means one type whatever order its keys come in, and every schema of its cache marker is settled too |
| Settling.AgreeingIsSettled | tools/gen_models.py:446-472 | examples that agree on shared properties up to key order are settled in particular |
| Settling.MergedBlock | tools/gen_models.py:463-472 | a merge to a record or to one data key documents exactly what the examples document, each name as some example spells it |
| ExactCache.Variant | tools/gen_models.py:606-620 | where no merge is a mapping with two keys or more, a schema that is not settled has a twin of the same cache marker and another type |
| ExactCache.OneTypeIffSettled | tools/gen_models.py:606-620 | where no merge is a mapping with two keys or more, one cache marker has one type iff wherever examples merge every spelling of what decides the merged type is settled and means what the merged one means |
| CacheCounterexample.CacheCannotServeBoth | tools/gen_models.py:606-620 | two schemas with one cache marker mean two different types |
| CacheCounterexample.EmitBoth | tools/gen_models.py:606-620 | emitted one after the other on a new emitter, both succeed and the second gets the first one's class, so not both answers are right |
| Emitter.CacheInsert | tools/gen_models.py:670-680 | caching a class under the shape of one schema is right for every settled schema of that shape |
| Emitter.RecordMeans | tools/gen_models.py:622-680 | a class with one faithful field per kept property means the record |
| Emitter.DefinedRecord | tools/gen_models.py:663-680 | appending and caching a record keeps the table well formed and the cache exact |
| Emitter.SomeFieldKept | tools/gen_models.py:657-661 | a record block has at least one kept property, so the branch for no fields is unreachable |
| Emitter.ModelEmitter.constructor | tools/gen_models.py:515-522 | the empty emitter is valid |
| Emitter.ModelEmitter.Emit | tools/gen_models.py:553-600 | in every reachable state: the table stays well formed and only grows, the expression mentions only its classes and, for settled schemas, unfolds to the pure meaning; a cached shape returns its class and changes nothing; a record met for the first time, here or as a container's item or value, is the last class, named by its hint and required as its document demands; no more classes are appended than records are reached, and it fails only where a record reached keeps a thousand properties or those classes and the earlier ones use up the spellings of a name |
| Emitter.ModelEmitter.EmitRecord | tools/gen_models.py:606-680 | on a cache miss the last class appended is the answer: its fields are the kept names in the block's order, required iff not everything is optional and the document's `required` list holds the wire name, and its name is the first free spelling of the pinned name or the hint; failures as for Emit |
| Emitter.ModelEmitter.DefineRecord | tools/gen_models.py:663-680 | appends exactly one class under the first free name and caches it under its shape; exhaustion changes nothing |
| Emitter.ModelEmitter.EmitRoot | tools/gen_models.py:526-551 | returns nothing iff the schema is opaque or a scalar, and then changes nothing; otherwise the named class unfolds to the meaning of a settled schema, and a class that is new is the last one, under the first free spelling of the base name; failures as for Emit, with one more class |
| EmissionBounds.TakenIsCrowded | tools/gen_models.py:622-636 | a field name is exhausted only in a record that keeps a thousand properties |
| EmissionBounds.NamesRunOut | tools/gen_models.py:515-522 | a class name is exhausted only after at least 994 classes |
| Folding.FoldIsPlain | tools/gen_models.py:712-714 | whatever the text, it folds to words without folded punctuation joined by single spaces |
| Folding.FoldFixesIff | tools/gen_models.py:696-714 | folding leaves a text alone iff it is of that form |
| Folding.FoldIdempotent | tools/gen_models.py:712-714 | folding twice is folding once |
| Folding.FoldKeepsText | tools/gen_models.py:712-714 | apart from white space a text only has its punctuation translated, character by character |
| Folding.FoldedMarks | tools/gen_models.py:696-707 | exactly the two dashes, the four curly quotes, the ellipsis and the hard space are translated, each to its plain form |
| Aliases.AliasAsPrinted | tools/gen_models.py:846-847 | the literal a renamed field's alias is printed as reads back as its folded wire name |
| Aliases.AliasesKeptIff | tools/gen_models.py:841-847 | the aliases of an emitted record are its wire names iff folding leaves each wire name alone, and then no two fields share one |
| Aliases.FoldedAlikeCollide | tools/gen_models.py:740-742 | two fields share an alias iff their wire names fold alike |
| Acceptance.FitsUnified | tools/gen_models.py:446-472 | a document that fits one example of an agreeing block fits the merged schema |
| Acceptance.FaithfulIsAgreeing | tools/gen_models.py:446-472 | the condition for acceptance implies the one for the cache |
| Validation.AcceptedValidatesIff | src/pyecsdwan/generated/_base.py:34-50 | a document the emitted type accepts on the wire validates through the class table iff every field that reads another key than its wire name, by folded alias or Python name, accepts what it finds, and none that reads nothing is required |
| Validation.OwnNamesFit | src/pyecsdwan/generated/_base.py:34-50 | that is so in particular if every field reached reads its own wire name |
| Validation.DocumentedValidatesIff | tools/gen_models.py:553-600 | a document that fits a faithful schema validates against the model emitted for it iff what its fields misread fits, over record, map, mixed and empty blocks |
| Inference.ExampleFits | tools/gen_models.py:892-915 | every document whose lists fit their first element fits the schema inferred from it |
| Inference.AgreeingIsFaithful | tools/gen_models.py:892-915 | for inferred schemas agreement is all acceptance needs |
| InferredTypes.ShapeIff | tools/gen_models.py:892-915 | two examples infer one schema up to key order iff they have the same kinds at every key and first element |
| InferredTypes.OverlaidIff | tools/gen_models.py:446-472 | objects laid over one another have each key with the value of the first object that has it |
| InferredTypes.UnifyInfers | tools/gen_models.py:446-472 | unifying what objects infer is inferring what the objects laid over one another are |
| InferredTypes.InferredAcceptsIff | tools/gen_models.py:892-915 | the type inferred from an example accepts exactly the payloads that look like it: scalars of its kind, lists of elements like its first, objects whose values under its names are null or like its own, maps whose values are like what the block's values have in common |
| Validation.EvidenceValidatesIff | tools/gen_models.py:892-915 | the model of an inferred agreeing schema validates the document it was inferred from iff what its fields misread fits |
| Validation.CompleteReadsOwn | src/pyecsdwan/generated/_base.py:34-50 | in a document that holds every field of its type under plain names, each field reads its own wire name |
| Validation.UniformIsComplete | tools/gen_models.py:892-915 | a document with homogeneous lists and uniform maps holds every field of its own inferred type |
| Validation.UniformEvidenceValidatesIff | tools/gen_models.py:892-915 | with homogeneous lists, and maps whose values infer one schema or are not all objects, the inferred model validates its own evidence iff what its fields misread fits, and in particular if all keys that are not data are plain |
| ModelCounterexamples.FoldedEvidenceIsRefused | tools/gen_models.py:846-847 | uniform evidence its own model refuses, because two keys fold to one alias |
| ModelCounterexamples.ShadowedEvidenceIsRefused | src/pyecsdwan/generated/_base.py:40-46 | evidence the inferred type accepts on the wire and the emitted model refuses, because one instance's key is another field's Python name |
| AliasTable.FieldMembersShape | src/pyecsdwan/generated/_base.py:64-64 | dumping writes one member per alias of the fields that were set, the last field of an alias deciding its value |
| AliasTable.UnshadowedKeys | src/pyecsdwan/generated/_base.py:34-50 | without shadowing, the dumped record has exactly the payload's keys, each once, unknown and dropped ones kept as extras |
| Coercion.CoerceKeepsIff | src/pyecsdwan/generated/_base.py:13-18 | whatever lax validation accepts comes out in the field's own kind, and comes out unchanged iff it had that kind |
| AliasTable.ShadowedDiffers | src/pyecsdwan/generated/_base.py:34-50 | a key spelling a field's Python name while its alias is missing surfaces under an alias the payload never had |
| AliasTable.LoadDumpIffNative | src/pyecsdwan/generated/_base.py:34-69 | for every class table, validation accepts a payload and dumping by alias gives it back up to key order iff no key shadows a field, required aliases are there, and every value reached has its type's own JSON kind, the last field of a shared alias speaking for it, at any depth and for any spelling rules |
| AliasTable.EmittedNativeIff | tools/gen_models.py:622-655 | for emitted records of plain names that condition speaks of wire names and their own fields only |
| ModelCounterexamples.EchoUnderPythonName | tools/gen_models.py:217-231 | a payload that comes back under another name |
| ModelCounterexamples.NumberBecomesText | src/pyecsdwan/generated/_base.py:46-46 | a number under a text field's alias is accepted and comes back as text |
| ModelCounterexamples.NumberComesBackIff | tools/gen_models.py:846-847 | under the wire name it comes back as a number iff the field is renamed and folding changes that name |
| ModelCounterexamples.RequiredIsFoundIff | tools/gen_models.py:846-847 | a text documented under a required field's wire name validates iff the field is not renamed or folding leaves the name alone |
| ModelCounterexamples.ListIsRefused | src/pyecsdwan/generated/_base.py:34-50 | a list where the model is a record is refused |
| Literals.ReadEscaped | tools/gen_models.py:726-737 | one printed character reads back as itself, whichever quote encloses it |
| Literals.UnescapeQuotesEscape | tools/gen_models.py:735-736 | the global replacement strips exactly the quote escapes, also right after escaped backslashes |
| Literals.ReadRawLiteral | tools/gen_models.py:726-737 | reading a printed literal gives the text back, for every string |
| Literals.RawLiteralInjective | tools/gen_models.py:726-737 | different strings print differently |
| Wrapping.FillLossless | tools/gen_models.py:755-775 | filled lines joined by spaces are the words joined by spaces |
| Wrapping.FillFits | tools/gen_models.py:755-775 | no line exceeds a width no word exceeds |
| Wrapping.FillIsFilling | tools/gen_models.py:755-775 | filled lines are groups of words each of which is as full as it can be |
| Wrapping.FillingUnique | tools/gen_models.py:755-775 | there is only one way to group words like that |
| Wrapping.RenderedReadsBack | tools/gen_models.py:759-774 | the implicitly concatenated literals read back as the text |
| Wrapping.WrappedLiteral | tools/gen_models.py:745-775 | the lines read back as the folded text and fit 100 columns; the one-line form is used iff it fits; otherwise the width is the widest tried that fits; it gives up iff none does |
| PlainLiterals.ChunksLossless | tools/gen_plugin.py:465-472 | chunks with their trailing spaces concatenate to the clipped text, and none exceeds the budget |
| PlainLiterals.ChunkLinesSay | tools/gen_plugin.py:490-505 | the texts between the quotes of a printed message concatenate to the clipped text, and a line is an f-string iff it holds a placeholder |
| PlainLiterals.ClipShape | tools/gen_plugin.py:380-392 | a word within the budget is kept, a longer one is cut to the budget and ends in three dots |
| PlainLiterals.RaiseBlockFits | tools/gen_plugin.py:490-505 | every chunk line of a raise block fits 100 columns |
| PlainLiterals.ChunkBudgetTight | tools/gen_plugin.py:490-505 | an f-string chunk of full length with its trailing space takes exactly 100 columns |
| PlainLiterals.MessageFits | tools/gen_plugin.py:536-553 | every line of a message fits 100 columns, on one line or wrapped |
| PlainLiterals.ReadInert | tools/gen_plugin.py:475-487 | text between quotes reads back as itself iff it has no quote and no backslash that means anything; it is never read longer |
| PlainLiterals.AssignmentReadsBackIff | tools/gen_plugin.py:475-487 | for every text, on one line or wrapped, a literal assignment fits and assigns the clipped text iff nothing in it needs escaping |
| PlainLiterals.LoneQuoteIsLost | tools/gen_plugin.py:475-487 | a text that is one quote is not assigned |
| Signature.QueryParams | tools/gen_models.py:1073-1095 | one parameter per nonempty name, typed and required as its first declaration says; each Python name is the first free spelling given the reserved names and the parameters before it; it fails only where nearly a thousand names are declared |
| Signature.FirstNamesIff | tools/gen_models.py:1073-1095 | the names kept are exactly the nonempty ones declared, ordered by their first declarations |
| Signature.QueryTypeIsFieldType | tools/gen_models.py:1084-1085 | a query parameter is annotated as a model field of the same scalar type, with `Any` for every other type |
| Signature.BindingParameters | tools/gen_plugin.py:193-214 | the line scanner computes the reading function |
| Signature.PathParams | tools/gen_models.py:1098-1102 | one parameter per placeholder in declaration order, each with the first free spelling given the reserved names and those before it; it fails only with nearly a thousand placeholders |
| Text.SplitLeadingLines | tools/gen_plugin.py:205-205 | lines without a boundary of `str.splitlines` are split off one by one, whatever follows them |
| Signature.GeneratedIsPrintable | tools/gen_models.py:1073-1102 | a binding whose path and query parameters were so named can be printed and read back |
| Signature.SignatureRoundTrip | tools/gen_models.py:1406-1435 | scanning the generated source returns exactly client, ne_pk if appliance, path parameters, body if any, required then optional queries, params if orchestrator, expected |
| SignatureLines.StarDivides | tools/gen_models.py:1420-1435 | exactly one printed line is the star, right after the positional parameters; the names before and after it are the positional and the keyword ones |
| SignatureLines.DemandedIsMandatory | tools/gen_models.py:1420-1435 | the parameters printed without a default are exactly those a call must supply: client, an appliance's key, every placeholder, a required body, the required queries |
| SignatureLines.QueryAnnotation | tools/gen_models.py:1429-1434 | the word read off a query's line after the colon is its type |
| Signature.BodyLineIffRequired | tools/gen_plugin.py:188-190 | the line the probe looks for is printed iff the body is required |
| Signature.RequiresBodyIffRendered | tools/gen_plugin.py:188-190 | the probe on the generated source says yes iff the renderer was told the body is required |
| Signature.BodyNamedIffHasBody | tools/gen_plugin.py:193-214 | a parameter called body is read iff the operation has a body |
| Slugs.SlugFits | tools/gen_models.py:354-382 | every module name has at most 55 characters |
| Slugs.NaturalShape | tools/gen_models.py:321-333 | a natural slug is lowercase letters, digits and underscores and starts with its scope |
| Slugs.SlugOfPath | tools/gen_models.py:321-333 | a slug is the scope, the verb and one part per path segment, `by_` and the sanitized name for a placeholder, joined by underscores, empty parts left out |
| Slugs.TaggedIff | tools/gen_models.py:337-382 | an operation's name takes its digest iff its natural slug is over budget or some other operation has it too |
| Slugs.HeadDropsOneWord | tools/gen_models.py:354-367 | shortening drops from the cut name exactly its last word and the underscores around it, or only underscores where it is one word |
| Slugs.SlugIsLegal | tools/gen_models.py:321-382 | every module name is an identifier and no keyword |
| Slugs.TaggedIs | tools/gen_models.py:354-382 | a contested or overlong slug becomes what is kept of it, an underscore and its digest, after both steps |
| Slugs.SlugsDistinctIff | tools/gen_models.py:337-382 | module names are pairwise distinct iff no kept natural slug spells what another keeps with its digest, and no two tagged ones keep the same text under one digest |
| Slugs.SlugsDistinct | tools/gen_models.py:337-382 | with distinct digests it suffices that no kept slug ends in another operation's digest |
| Slugs.DigestsCanBeMimicked | tools/gen_models.py:354-382 | three operations with distinct digests two of which share a module |
| Compensation.FetchGives | tools/gen_plugin.py:623-674 | for the stub of any endpoint, fetching raises iff the paired GET demands a body or validation refuses what is held; else it gives a snapshot iff the instance is an object or a list, equal to what is held iff that is in the read model's own form |
| Stub.StubOfEndpoint | tools/gen_plugin.py:223-323 | an endpoint has a stub iff it is a write without white space in its path and no DELETE that demands a body, and which refusal it gets otherwise; the stub has the endpoint's scope, read and read model, a DELETE iff a body-free one is paired with another verb, and is compensable iff its state can be read and put back |
| StubProgram.GeneratedStub.Apply | tools/gen_plugin.py:796-835 | the server state and outcome are those of the apply step |
| StubProgram.GeneratedStub.Rollback | tools/gen_plugin.py:838-888 | the server state and outcome are those of the rollback step |
| StubProgram.GeneratedStub.Write | tools/gen_plugin.py:705-736 | stores the body and persists, or raises without a change |
| StubProgram.GeneratedStub.Delete | tools/gen_plugin.py:761-793 | removes the instance and persists, or raises without a change |
| StubProgram.GeneratedStub.PersistChanges | tools/gen_plugin.py:739-758 | appliance writes end in save-changes and report its failure |
| Compensation.ApplyOutcomeIff | tools/gen_plugin.py:796-835 | an apply raises, changing nothing, iff the call it makes does not go through; it reports ok iff there is nothing to do or the call goes through and, on an appliance, the save does too |
| Compensation.RollbackOutcomeIff | tools/gen_plugin.py:838-888 | a rollback refuses, changing nothing, iff the endpoint's state cannot be put back or nothing was there and no DELETE is paired; else it raises iff its call does not go through, and reports ok iff that and an appliance's save do |
| Compensation.AppliedState | tools/gen_plugin.py:705-835 | after an apply whose call goes through the instance holds the body sent, or is gone, every other one is as it was, and an appliance whose save succeeds has its own running state saved and no other; otherwise nothing changes |
| Compensation.RolledBackState | tools/gen_plugin.py:705-888 | the same for a rollback, with the snapshot for the body |
| Compensation.RunningReturnsIff | tools/gen_plugin.py:796-888 | for every endpoint, state and save outcome, a transaction that got its snapshot returns the running state iff the instance could be compensated, or the change asks for nothing new and the rollback has nothing to do |
| Compensation.TransactionRestoresIff | tools/gen_plugin.py:223-888 | for every endpoint with a stub, every valid state, instance and body, with calls accepted and saves succeeding, fetch, apply and rollback restore running and saved state iff a condition on the endpoint, the state and the body that can be tested beforehand |
| Compensation.AbsentComesBackAbsent | tools/gen_plugin.py:288-353 | on a compensable endpoint an instance that was absent is absent again after apply and rollback iff a body-free DELETE is paired |
| StubProgram.GeneratedStub.Transact | tools/gen_plugin.py:623-888 | the same for the emitted class of any endpoint run against a mutable server |
| Compensation.ScalarStateIsLost | src/pyecsdwan/resources/generated/_stub.py:120-136 | whatever an endpoint that is compensable and paired with a DELETE holds that is neither object nor list is deleted by a rollback that reports ok |
| Compensation.CoercedStateIsChanged | src/pyecsdwan/generated/_base.py:46-46 | an instance holding a number under a text field's alias never comes back, whatever the transaction |
| Compensation.OkMeansPersisted | tools/gen_plugin.py:739-758 | for every appliance endpoint with a stub, every non-empty apply and every rollback that reports ok leaves running and saved state equal |
| Compensation.SaveIsLocal | tools/gen_plugin.py:739-758 | saving one appliance leaves every other one's saved state alone |
| StubCalls.RefParamsFor | tools/gen_plugin.py:257-278 | the loops compute the table: the write's placeholders, then required queries of write, read and delete, first mention per wire name |
| StubCalls.FirstByWireShape | tools/gen_plugin.py:257-278 | the table lists every wire name mentioned, and none twice |
| StubCalls.TableIff | tools/gen_plugin.py:257-278 | the table lists exactly the write's placeholders and the required queries of all operations; a name that is both is a path value; distinct placeholders come first, in path order |
| StubCalls.CallBindsIff | tools/gen_plugin.py:580-612 | a parameter of the called binding is bound to an argument iff it is the one it is to be given: client and key their own, the i-th placeholder the value named by the write's i-th, the body the body if it is passed, a required query the value of its own name; nothing else is bound |
| StubCalls.LookupsServed | tools/gen_plugin.py:580-620 | every value an emitted call looks up is in the table, and the method parses the ref iff it looks one up |
| StubCalls.CallCompleteIffBodyPassed | tools/gen_plugin.py:580-612 | the call supplies every parameter printed without a default iff it passes a body wherever one is mandatory |
| RefParams.ReadRef | src/pyecsdwan/resources/generated/_stub.py:61-107 | the parser with its four refusals computes the reading function |
| RefParams.ParamValuesIff | src/pyecsdwan/resources/generated/_stub.py:61-107 | a name without an equals sign is the value of the one parameter; else the first chunk that is no assignment of a declared name is blamed, or the names without a nonempty last assignment are, or each name has the value of the last chunk assigning it |
| RefParams.ParsedIsComplete | src/pyecsdwan/resources/generated/_stub.py:101-107 | an accepted name gives every declared parameter a nonempty trimmed value and nothing else one |
| RefParams.LookupsFindValues | tools/gen_plugin.py:580-620 | every lookup of an emitted call finds a nonempty value in an accepted name |
| RefParams.AssignmentsRoundTripIff | src/pyecsdwan/resources/generated/_stub.py:61-107 | values spelled out in any order come back iff each is nonempty, trimmed and without a comma |
| RefParams.NameableIff | src/pyecsdwan/resources/generated/_stub.py:82-99 | with one parameter a value can be named at all iff it is nonempty, trimmed and has not both an equals sign and a comma |
| Urls.SplitInvertsCompose | tools/spec_sync.py:271-282 | splitting a URL composed by section 3 of RFC 3986 gives its components back, the scheme case-folded |
| Urls.HostlessIsKept | tools/spec_sync.py:278-280 | a URL that is a path with query and fragment splits into those and is left as it is |
| Urls.SanitizeUrlByHost | tools/spec_sync.py:271-282 | a URL with a host becomes https, the placeholder and its own path, any other stays as it is |
| Urls.HostedPath | tools/spec_sync.py:278-282 | the path of any URL with a host is empty or absolute and free of delimiters and line breaks |
| Urls.SanitizeUrlIdempotent | tools/spec_sync.py:271-282 | sanitizing a URL twice is sanitizing it once |
| Urls.SanitizeUrlHostBlind | tools/spec_sync.py:271-282 | scheme, host, port, query and fragment leave no trace in a sanitized URL |
| Sanitizing.SweepServers | tools/spec_sync.py:244-255 | the loop over servers computes url-only entries in order of first appearance and the labels of those that change, or stops at a URL that cannot be split |
| Sanitizing.Sanitize | tools/spec_sync.py:231-268 | the sanitizer computes the specification function, field by field |
| Sanitizing.SanitizedIsClean | tools/spec_sync.py:231-268 | nothing but servers, basePath and host changes, no key appears or disappears, and those three end up clean |
| SanitizedFields.SweptList | tools/spec_sync.py:244-255 | the server list that results holds every entry's sanitized URL and nothing else, in order of first appearance |
| SanitizedFields.SweptLabels | tools/spec_sync.py:250-251 | the labels are those of exactly the entries that change, in order |
| SanitizedFields.SanitizedFieldsAre | tools/spec_sync.py:231-268 | a specification is refused iff a server's URL or a textual base path cannot be split; else servers are swept, base path and host replaced, every other field or kind of value kept, and the report names exactly what changed |
| Sanitizing.SanitizedNamesNoDeployment | tools/spec_sync.py:231-268 | every server entry is url-only and names no host but the placeholder, as do basePath and host |
| Sanitizing.SanitizeSpecIdempotent | tools/spec_sync.py:231-268 | a second pass touches nothing |
| Sanitizing.SanitizeSpecHostBlind | tools/spec_sync.py:231-268 | publications of one API that differ only in where they are deployed sanitize to one document, or are all refused |
| Baselines.DestIsBaseline | tools/spec_sync.py:435-441 | the written name matches its target's pattern and has no path separator, whatever the version |
| Baselines.TargetsApart | tools/spec_sync.py:218-224 | no file name is a baseline of both targets |
| Baselines.SlugKeeps | tools/spec_sync.py:436-436 | in the file name a version keeps its letters, digits, dots, underscores and dashes, and has an underscore for any other character |
| Baselines.VersionIs | tools/spec_sync.py:435-436 | the version is the rendered `info.version`, or `unknown` without an `info` |
| Baselines.BaselineDir.FindBaseline | tools/spec_sync.py:218-224 | fails iff there are several, and otherwise gives the one there is, or none |
| Baselines.BaselineDir.WriteBaseline | tools/spec_sync.py:422-445 | replaces the target's baseline by the sanitized document under its version's name; a refusal changes nothing |
| Baselines.UpdateKeepsOthers | tools/spec_sync.py:422-445 | an update leaves the other target's baselines and every unrelated file as they were |
| Baselines.RunOutcome | tools/spec_sync.py:422-445 | after any run from any directory a target's baselines are its last good update, or unchanged; the other target's updates have no say |
| Baselines.ExactlyOneIff | tools/spec_sync.py:422-445 | a run with a good update leaves exactly one baseline iff it began with at most one |
| Baselines.AtMostOneKept | tools/spec_sync.py:422-445 | a run never makes two baselines out of one |
| Baselines.InterruptionSticks | tools/spec_sync.py:437-444 | a write whose superseded baseline was not removed blocks every later update of the target |
| Ordering.SortingUnique | tools/spec_sync.py:378-393 | a set has one sorting under a total order |
| Ordering.Sorted | tools/spec_sync.py:378-393 | sorting gives that one result in whatever order the set is walked |
| JsonValues.MarkerExact | tools/spec_sync.py:326-330 | two documents have one fingerprint iff they differ in key order at most |
| JsonValues.PyEqualExact | tools/spec_sync.py:395-401 | Python's equality on documents is equality of values, booleans and numbers compared as numbers |
| SpecDiff.EndpointKeyInjective | tools/spec_sync.py:311-311 | verb and path can be read back off an index key |
| SpecDiff.BuildEndpointIndex | tools/spec_sync.py:289-312 | the nested loops compute the index |
| SpecDiff.IndexExact | tools/spec_sync.py:289-312 | the index has a key iff looking the operation up finds one, and holds the fingerprint of the operation with its path's shared parameters |
| SpecDiff.SameIndexIff | tools/spec_sync.py:289-312 | two indices are equal iff every operation is in both or neither, with one content up to key order |
| SpecDiff.IndexedIff | tools/spec_sync.py:289-312 | over the raw documents: an operation is indexed iff `paths.<path>.<verb>` is there, and two fingerprints of it agree iff that value and the path's `parameters` are the same up to key order |
| SpecDiff.SchemaIndexExact | tools/spec_sync.py:315-323 | the schema index is the content of components.schemas, else of definitions, else empty, by name up to key order |
| SpecDiff.DeltaExact | tools/spec_sync.py:372-393 | added, removed and changed are disjoint, rebuild the new index from the old one, swap when the arguments swap, and are all empty iff the indices are equal |
| SpecDiff.EndpointOrderIsTotal | tools/spec_sync.py:404-406 | ordering by path, then verb, tells all index keys apart |
| SpecDiff.DiffSpecs | tools/spec_sync.py:372-401 | the report is the sorting of each delta and the metadata fields that differ, in their order |
| SpecDiff.ReportedEndpoints | tools/spec_sync.py:372-393 | over the raw documents: an endpoint is added or removed iff one document alone has it, and changed iff both have it with another operation or other shared parameters |
| SpecDiff.ReportedSchemas | tools/spec_sync.py:315-393 | the same for component schemas, or Swagger definitions where there are none, in the order of their names |
| SpecDiff.ReportedMetadata | tools/spec_sync.py:395-401 | one of the seven metadata fields is reported, with both values, iff these differ as Python compares them |
| SpecDiff.MetadataInOrder | tools/spec_sync.py:395-401 | reported metadata fields come in their fixed order, each once |
| SpecDiff.ReportUnique | tools/spec_sync.py:372-401 | two specifications have one report, independent of set iteration |
| SpecDiff.NoDriftIff | tools/spec_sync.py:345-354 | no drift iff endpoint index and schema index agree and every metadata field is equal as Python compares them |
| SpecDiff.InSyncIff | tools/spec_sync.py:345-354 | no drift iff the raw documents have the same operations with the same content and shared parameters, publish the same schemas, and agree in every metadata field |
| SpecDiff.InSyncAfterUpdate | tools/spec_sync.py:545-566 | after any run with a good update, fetching the API again from any deployment reports no drift against the one baseline held |
| Folders.Walk | tools/postman_sync.py:216-232 | the loop over parents computes the path, on every graph |
| Folders.FolderPaths | tools/postman_sync.py:207-233 | one path per listed folder |
| Folders.PathSound | tools/postman_sync.py:207-233 | between one and sixteen names, the folder's own last, and no folder visited twice |
| Folders.PathNamesAncestors | tools/postman_sync.py:207-233 | the path names the folder and at most fifteen ancestors, root first, following parent pointers until one is missing, unlisted or met before |
| Folders.PathLawIff | tools/postman_sync.py:207-233 | a path is the parent's path and the own name iff the folder is not its parent's ancestor and the chain fits sixteen |
| ReleaseEntries.SplitUrlIff | tools/postman_sync.py:236-245 | a URL is scoped iff it starts with one of the base-URL variables, and the rest is the path |
| ReleaseEntries.ParseExampleIff | tools/postman_sync.py:248-260 | missing, blank or non-textual bodies stand for nothing, JSON for its value, anything else for its own text |
| ReleaseEntries.PickIs | tools/postman_sync.py:263-286 | over the raw responses: body and status are those of the first that gives a successful body, else of the first that gives one, else none |
| ReleaseEntries.PickResponse | tools/postman_sync.py:263-286 | the first successful response with a body, else the first with a body, else nothing |
| ReleaseEntries.DistilRelease | tools/postman_sync.py:289-323 | the loop over requests computes the entries the next row describes |
| ReleaseEntries.FirstRequestWins | tools/postman_sync.py:289-323 | an endpoint has an entry iff a request that counts mentions it, and the first such request gives each of its fields: the rendered name, the path after the variable, the listed folder's path, the parsed request body, the picked response, and its status iff there is a body and it is not 200 |
| ReleaseFold.FoldStep | tools/postman_sync.py:326-364 | folding one more release keeps newest payload and oldest since for every endpoint |
| ReleaseFold.Distil | tools/postman_sync.py:326-364 | the keys are the union, each payload the newest, each since the oldest; removed_after is there iff the newest release lacks the key and names the last that had it |
| ReleaseFold.FoldUnique | tools/postman_sync.py:326-364 | that determines the fold |

## Left out

- The transaction engine, journal, watchdog and resolver: endpoints, their parameters and their resolved finite schemas are given data here.
- JSON text, files, HTTP, the command line and ruff: the baseline directory is a map from names to documents, and a written document is assumed to read back as it was.
- Non-string entries of `required`, which the source turns into their `str`.
- Header and docstring prose, import blocks, enums, descriptions, notes and the flags that only steer them.
- ExactCache.OneTypeIffSettled: that being settled is necessary is proved for schemas in which no examples merge to a mapping with two keys or more; that it is sufficient is proved for all (`SettledByMarker`). For such a mapping the types reachable by reordering the examples choose one spelling per key jointly, and Settled asks for agreement up to key order instead.
- Validation.EvidenceValidatesIff: the library's readings of text as numbers and booleans, and its spelling of floats, are parameters; the theorems hold for all of them. NaN, infinities and the precision of very large integers as floats are not modelled.
- Wrapping.WrappedLiteral: the last-resort branch that breaks inside words is reported as giving up, because it does not preserve the text.
- Wrapping.FillLossless: `textwrap` is greedy filling of single-spaced words.
- Literals.ReadRawLiteral: the reader refuses octal, `\x`, `\U` and `\N` escapes, which the printer never writes.
- Signature.SignatureRoundTrip: the text before the signature must not contain the signature's own header, as in the generated modules.
- Naming.PythonFieldNameLegal: letters and digits outside ASCII count as neither, and `_dedupe` returns the taken set instead of updating it in place.
- SHA-256: fingerprints and cache keys are order-insensitive markers compared structurally; the six digest characters of a slug are a parameter, distinct where a lemma says so.
- SpecDiff.NoDriftIff: `diff_artifacts` of `tools/postman_sync.py`, which compares endpoint entries the same way, is not modelled.
- Urls.SplitInvertsCompose: the checks `urlsplit` makes on normalised host characters and bracketed addresses are not modelled.
- Baselines.BaselineDir.WriteBaseline: Python's `str` of a version is a parameter, and an update is one step except in `InterruptionSticks`.
- Compensation.TransactionRestoresIff: the server stores what is written and accepts what it once returned, which the tool itself does not promise; queries select no instance of their own, and nothing is applied without a snapshot, as the transaction engine has it.
- Slugs.SlugIsLegal: verbs are nonempty letters, as HTTP's are; `normalize_path` is not modelled and an operation's key is given.
- Distinctness of path and query parameter names from each other, which the code does not decide.
- ReleaseEntries.DistilRelease: JSON parsing, Python's `str` and the package's endpoint normalizer are parameters.
- Choosing one stub per path (`select_primary`), which would only add easy members.
