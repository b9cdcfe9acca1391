# Verification of the tabletop oracle's core logic

The tabletop oracle answers questions about board-game rules from uploaded rule books.  This
project models the parts of it whose correctness is hardest to see and proves what they promise:

- **Traversal** of the association graph: the recursive query computes shortest bounded paths.
- The **knowledge-graph store** (`KnowledgeGraph`, `GraphIntegration`, `GraphRemoval`,
  `Conflicts`, `GraphRuns`, `GraphContributions`, `GraphStore`, over `Rows`): ingesting documents, removing them and
  resolving authority keeps the tables consistent over every run; what each operation leaves in them is stated row by row.
- **Chunking** (with `Text`): section trees become sized, overlapping chunks and lose no paragraph.
- **Server-sent events** (`Sse`): the wire format and the replay buffer.
- The **query pipeline** with concurrent cancellation (`QueryPipeline`) and the **ingestion
  pipeline** with failure and retry (`IngestionPipeline`).
- **Numbering** of messages and document versions by competing clients, **identity** binding at
  login, **sessions** with throttled sliding expiry (`AuthSessions`), the **conversation** window.
- **LIKE patterns** (`LikePattern`): escaping, against a matcher of section 8.5 of ISO/IEC 9075-2
  with the backslash escape of the PostgreSQL manual, section 9.7.1.

Services that change state are classes whose methods follow the service code step by step; each method
is tied to a function on values, and the properties are proved about that function, over all
inputs and all runs.  Queries and pure helpers are functions.

`dafny verify dfyconfig.toml` checks the whole project.

Where the code and its documentation disagree, the model follows the code:

- `_resolve_canonical` speaks of following a chain to the root; it takes one hop.  One hop is
  enough (`GraphRuns.RunSound`).
- `execute` of the query pipeline lists the cancellation check after each stage; it stands before each
  one, so a request that lands once the check has passed lets that stage start
  (`QueryPipeline.LateStartIff`).
- The comment on the priority order has the higher of two conflicting sources become authoritative; after
  a version is replaced a lower one can be (`GraphRuns.ReplacementUnranks`).
- `find_by_name` speaks of a case-insensitive match; it is an unescaped pattern match.  It means
  equality for names without `%`, `_` and `\` only (`KnowledgeGraph.LookupIsEqualityIffPlain`).
- `_merge_undersized` speaks of blocks that share a parent section; it never looks at sections
  (`Chunking.MergingIgnoresSections`).
- `chunk` lists merging before splitting; the code splits first.
- The failure handler of the ingestion pipeline is said to clean up and set the error status; after a
  rejected statement or commit it does neither, because nothing rolls the session back
  (`IngestionPipeline.EndsInErrorIff`).
- The clarification stage speaks of the history length; it takes the number after the question.
- The comment in the replay scan puts the id on the second line; it is on the first.
- The target chunk size is no bound on chunks (`Chunking.SeparatorBoundIsTight`).

## Model

| member | source | states |
|---|---|---|
| `Traversal.TraversalIsShortestPaths` | src/tabletop_oracle/services/kg/retrieval.py:341-433 | For every graph, root, filter and depth limit, and however ties are broken: a concept other than the root is reported if and only if a walk within the limit, in either direction, through canonical concepts that pass the filter reaches it; its depth is the length of a shortest such walk, its visited concepts are such a walk, the association it reports is the last step of that walk in the reported direction, and it is reported once |
| `Traversal.TraverseAnswers` | src/tabletop_oracle/services/kg/retrieval.py:269-304 | The traversal service returns such an answer, and nothing when the root is not a concept of the game |
| `Traversal.FilterLaw` | src/tabletop_oracle/services/kg/retrieval.py:313-339 | One law for the three spellings of the expansion filter: everything passes without one; otherwise exactly the concepts with a source of the base game or of an active expansion |
| `Traversal.AdmittedIsEligible` | src/tabletop_oracle/services/kg/retrieval.py:353-373 | A concept is admitted if and only if it is stored, canonical, and, under a filter, has such a source |
| `Traversal.TraverseFollowsTrails` | src/tabletop_oracle/services/kg/retrieval.py:269-433 | What the service returns, in terms of the rows: a concept other than the root is reported if and only if a chain of associations of the game, no longer than the limit, leads to it from the root through concepts of that kind |
| `Traversal.ExpansionConceptReported` | src/tabletop_oracle/services/kg/retrieval.py:313-339 | A concept that one expansion alone sources is reported only without a filter or with that expansion active, and then whenever such a chain reaches it |
| `Traversal.TraversalOfRoot` | src/tabletop_oracle/services/kg/retrieval.py:353-373 | The root is reported if and only if it is admitted and associated with itself, and then at depth one by such an association |
| `Traversal.RowsAreBounded` | src/tabletop_oracle/services/kg/retrieval.py:392-414 | Path enumeration ends whatever the depth limit: no row is deeper than there are concepts, since visited concepts are distinct |
| `Traversal.TraversalIsMonotone` | src/tabletop_oracle/services/kg/retrieval.py:313-339 | Activating more expansions, dropping the filter or raising the depth loses no concept and reports none farther away |
| `Traversal.DistinctOnIsDistinct` | src/tabletop_oracle/services/kg/retrieval.py:422-432 | Sorting by concept and depth and keeping the first of each yields one row of least depth for every concept |
| `Traversal.IterateCollects` | src/tabletop_oracle/services/kg/retrieval.py:342-421 | Evaluating the recursive query by working tables collects exactly the rows of all its rounds |
| `Traversal.LayerSound` | src/tabletop_oracle/services/kg/retrieval.py:378-420 | Every row of round d records a path of d distinct admitted concepts from the root, consecutive ones associated, and as its association the last step of that path |
| `Traversal.ShortestHasRow` | src/tabletop_oracle/services/kg/retrieval.py:378-420 | Excluding visited concepts and the root never cuts off a shortest walk |
| `Traversal.DirectAssociations` | src/tabletop_oracle/services/kg/retrieval.py:593-694 | The direct list holds the outgoing associations in order, then the incoming ones, a self-association twice |
| `Traversal.DirectEntries` | src/tabletop_oracle/services/kg/retrieval.py:593-694 | Entry by entry: identifier, label, description, concept and direction are those of an association of the game between the root and an eligible concept, and every such association has its entry |
| `Traversal.EntriesInOrder` | src/tabletop_oracle/services/kg/retrieval.py:593-694 | Entries keep the order of the associations |
| `Traversal.ListedAreAdjacent` | src/tabletop_oracle/services/kg/retrieval.py:593-694 | It names exactly the admitted concepts adjacent to the root, in all three spellings of the filter |
| `Traversal.DepthOneIsDirect` | src/tabletop_oracle/services/kg/retrieval.py:341-373 | The concepts the traversal reports at depth one are exactly those the direct list holds |
| `Traversal.DepthOneRowIsEntry` | src/tabletop_oracle/services/kg/retrieval.py:341-373 | The association, label, concept and direction of each row reported at depth one are those of an entry of the direct list |
| `KnowledgeGraph.FindByName` | src/tabletop_oracle/repositories/kg_repository.py:51-73 | A name lookup is a pattern match: no row, the only row, or an exception, which is raised exactly when several rows match or the pattern is found invalid |
| `KnowledgeGraph.LookupIsEqualityIffPlain` | src/tabletop_oracle/repositories/kg_repository.py:69-71 | An unescaped lookup is equality up to case if and only if the name holds no metacharacter |
| `KnowledgeGraph.MatchingRaisesNothing` | src/tabletop_oracle/repositories/kg_repository.py:69-73 | A name that matches anything at all is never found invalid |
| `LikePattern.PlainThenBackslashTrips` | src/tabletop_oracle/repositories/kg_repository.py:69-73 | A pattern without wildcards that ends in a lone backslash fails on exactly the texts that go on after what stands before it |
| `KnowledgeGraph.AsciiIsFolding` | src/tabletop_oracle/repositories/kg_repository.py:69-71 | The folding of ASCII letters meets what is asked of a folding: it leaves wildcards and backslashes alone, makes none, and folds once and for all |
| `GraphIntegration.IntegrateConceptSound` | src/tabletop_oracle/services/kg/integration.py:261-349 | Integrating one concept keeps every constraint of the tables, only adds rows, returns a canonical concept of the game, and leaves the chunk among its sources; the broken-chain branch is never taken |
| `GraphIntegration.IntegrateConceptsSound` | src/tabletop_oracle/services/kg/integration.py:77-130 | The same for a whole list, concept by concept |
| `GraphIntegration.IntegrateConceptsUnique` | src/tabletop_oracle/services/kg/integration.py:261-349 | Names stay unique up to case when every name brought in matches itself as a pattern, fails on itself, or has no other casing |
| `GraphIntegration.CollisionIff` | src/tabletop_oracle/services/kg/integration.py:288-317 | Exactly which names can make two names of a game collide in some consistent graph: those that neither match nor fail on themselves and have another casing |
| `GraphIntegration.OtherCasingCollides` | src/tabletop_oracle/services/kg/integration.py:288-317 | The failing input: the other casing is stored, with its source, and the lookup misses it |
| `GraphIntegration.SomeNamesCollide` | src/tabletop_oracle/repositories/kg_repository.py:69-71 | Such names exist under every folding that folds a character to another |
| `GraphIntegration.FreeNameIsNewIff` | src/tabletop_oracle/repositories/kg_repository.py:51-73 | A lookup that finds nothing proves the name new up to case, in every graph, if and only if the name matches itself as a pattern or fails on itself |
| `GraphIntegration.BackslashFreeIsSelfMatching` | src/tabletop_oracle/repositories/kg_repository.py:69-73 | Every name without a backslash matches itself, wildcards or not |
| `GraphIntegration.IntegrationIsIdempotent` | src/tabletop_oracle/services/kg/integration.py:77-130 | Checked before the call: when, among the names of the game and of the list, each name of the list selects only itself and aliases cannot collide, integrating it a second time changes nothing and returns the same concepts (sufficient; the exact condition is that of RerunIff) |
| `GraphIntegration.RerunIff` | src/tabletop_oracle/services/kg/integration.py:77-130 | Checked between the calls: a second time changes nothing and returns the same concepts if and only if every name then leads to the concept it was integrated into |
| `GraphIntegration.PlainIsSelective` | src/tabletop_oracle/repositories/kg_repository.py:69-71 | Names without wildcard and backslash meet the first condition in every graph |
| `GraphIntegration.AssociationsAreIdempotent` | src/tabletop_oracle/services/kg/integration.py:132-177 | Integrating associations a second time changes nothing, whatever their names |
| `GraphIntegration.RerunOfOne` | src/tabletop_oracle/services/kg/integration.py:288-349 | For one concept without aliases: the second time is a no-op if and only if it was found the first time or its name matches itself; otherwise it fails, on the pattern or on the unique name |
| `GraphIntegration.AbsorbedStays` | src/tabletop_oracle/services/kg/integration.py:374-413 | What the graph has absorbed stays absorbed while other concepts of the document are integrated, as long as its name selects only its own |
| `GraphIntegration.AddAliasesSound` | src/tabletop_oracle/services/kg/integration.py:331-347 | Adding aliases keeps every constraint and leaves the sources alone |
| `GraphContributions.MentionStored` | src/tabletop_oracle/services/kg/integration.py:261-329 | Exactly what one mention does: a matching row is reused with its canonical concept and nothing else changes among the concepts, else the concept is created as extracted; its chunk gets one source, with document, type, expansion and time, unless it has one |
| `GraphContributions.NewConceptStored` | src/tabletop_oracle/services/kg/integration.py:331-347 | For a new concept each alias ends up with a row of its own, pointing to the concept, or with a row that it matches; every other row added is that of an alias |
| `GraphContributions.AliasesStored` | src/tabletop_oracle/services/kg/integration.py:331-347 | The same for the alias loop alone |
| `GraphContributions.NewAliasLeadsIff` | src/tabletop_oracle/services/kg/integration.py:331-347 | An alias that matched no row of the game, nor the name of the concept, nor an earlier alias is stored; if it matches itself, it leads to the concept if and only if it matches no other row by then |
| `GraphContributions.WildcardAliasLeadsNowhere` | src/tabletop_oracle/services/kg/integration.py:331-347 | The failing input: the second alias matches the first, which then leads nowhere |
| `GraphContributions.PlainAliasLeads` | src/tabletop_oracle/services/kg/integration.py:331-347 | An alias without wildcard and backslash that no row of the game matched leads to the new concept, as long as names stay unique up to case |
| `GraphContributions.MentionByAliasJoins` | src/tabletop_oracle/services/kg/integration.py:288-310 | A mention under a name that leads to a concept is a further source of it and creates nothing |
| `GraphIntegration.BuildConceptMap` | src/tabletop_oracle/services/kg/integration.py:179-194 | Each key is the lower-cased name of its concept, a concept just integrated |
| `GraphIntegration.LastOfSpellingIsFound` | src/tabletop_oracle/services/kg/integration.py:179-194 | Every name of the list is a key, and of concepts spelt alike the last is the one found |
| `GraphIntegration.IntegrateAssociationsSound` | src/tabletop_oracle/services/kg/integration.py:453-531 | Integrating associations keeps every constraint: no dangling end, no repeated key, no repeated source; concepts and concept sources are untouched |
| `GraphContributions.AssociationStored` | src/tabletop_oracle/services/kg/integration.py:453-531 | When both folded names are known, an association of the game from the source concept to the target concept with that label is there afterwards, with the chunk among its sources; whatever row is added has those ends, that label and that description, or is such a source; otherwise nothing changes |
| `GraphContributions.AssociationsStored` | src/tabletop_oracle/services/kg/integration.py:132-177 | The same for a list: every association with known names is linked, every row added belongs to one of them |
| `GraphContributions.KeysHold` | src/tabletop_oracle/models/knowledge_graph.py:116-234 | The unique keys of sources, associations and association sources, spelt out |
| `GraphContributions.InsertAcceptedIff` | src/tabletop_oracle/repositories/kg_repository.py:96-107 | A concept insert is rejected exactly when it would repeat a name in the game |
| `GraphRemoval.RemovalClosedForm` | src/tabletop_oracle/services/kg/integration.py:196-259 | Removal fails if and only if a concept sourced from this document alone has an alias; otherwise the result is given outright, and the counters are the sizes of the sole-source and shared sets before |
| `GraphContributions.RemovalExactly` | src/tabletop_oracle/services/kg/integration.py:196-259 | Row by row: removal succeeds if and only if no alias points to a concept that this document alone sources; then exactly those concepts go, the sources of the document, the associations that lose an end, and the sources of those |
| `GraphContributions.RemovalKeepsOrder` | src/tabletop_oracle/services/kg/integration.py:196-259 | The rows that stay keep their order |
| `GraphRemoval.RemoveEachClosed` | src/tabletop_oracle/services/kg/integration.py:232-246 | After any part of the loop the tables are those without the contributions treated so far |
| `GraphRemoval.DeleteFromWithout` | src/tabletop_oracle/models/knowledge_graph.py:68-71 | Deleting a canonical concept cascades to sources, associations and their sources; a reference from an alias blocks it |
| `GraphRemoval.RemovalSound` | src/tabletop_oracle/services/kg/integration.py:196-259 | A removal that succeeds keeps every constraint and makes no names collide |
| `GraphRemoval.RemovalUndoesGrowth` | src/tabletop_oracle/services/kg/integration.py:196-259 | Where a document brought aliases of its new concepts only, removing it succeeds if and only if it brought no alias row at all, and then takes back exactly the concepts and sources it added |
| `GraphRemoval.NewAliasBlocks` | src/tabletop_oracle/models/knowledge_graph.py:68-71 | One alias row that a document brought is enough for its removal to fail |
| `Conflicts.ExtendedRanksIff` | src/tabletop_oracle/services/kg/conflicts.py:64-122 | Once a later document has added to a list of sources and the list is resolved, its first authoritative source has maximal priority if and only if it had before, or none of the earlier sources outranks the document |
| `Conflicts.RankedResolvedIff` | src/tabletop_oracle/services/kg/conflicts.py:64-122 | Resolving ranks a list that was not ranked if and only if it moves the flag to a source of maximal priority |
| `Conflicts.NewcomerFlags` | src/tabletop_oracle/services/kg/conflicts.py:64-122 | After a document that outranks all earlier sources, its first source alone is flagged if a flag was there to displace; otherwise all it added are flagged |
| `Conflicts.RankedIsFixed` | src/tabletop_oracle/services/kg/conflicts.py:85-122 | Where the first authoritative source already has maximal priority, resolving changes nothing |
| `Conflicts.ResolveAllMovesFlags` | src/tabletop_oracle/repositories/kg_repository.py:216-230 | Resolving changes authority flags and nothing else |
| `Conflicts.ResolvedOnce` | src/tabletop_oracle/services/kg/handoff_impl.py:418-446 | Resolving all concepts, some perhaps repeatedly, does to the sources of each what resolving it once does |
| `Conflicts.ResolveAllIsIdempotent` | src/tabletop_oracle/services/kg/handoff_impl.py:418-446 | Resolving all concepts a second time changes nothing |
| `Conflicts.NewestIsFirstAdded` | src/tabletop_oracle/services/kg/handoff_impl.py:435-435 | Among sources created at one instant, the newest is the first that the document added |
| `Conflicts.FirstAuthoritative` | src/tabletop_oracle/services/kg/conflicts.py:125-139 | The flagged source with none flagged before it, or none when none is flagged |
| `Conflicts.PriorityOrder` | src/tabletop_oracle/services/kg/conflicts.py:29-43 | Errata rank above FAQ, FAQ above the rules of core and expansions alike, those above strategy, and strategy above everything else alike |
| `Conflicts.UnflaggedGetsNewest` | src/tabletop_oracle/services/kg/conflicts.py:85-122 | Among several sources none of which is flagged the newest is flagged, and only that one |
| `GraphRuns.RunSound` | src/tabletop_oracle/services/kg/handoff_impl.py:106-320 | Every run of ingests and removals, failed ones changing nothing, keeps: aliases one hop from a live canonical concept of their game, sources on canonical concepts only and one to a chunk, a source for every canonical concept, no dangling or repeated association |
| `GraphRuns.RunUniqueUpToCase` | src/tabletop_oracle/services/kg/handoff_impl.py:106-320 | Names stay unique up to case in every run whose names match themselves, fail on themselves, or have no other casing |
| `GraphRuns.EmptyIsSound` | migrations/versions/e5f6a7b8c9d0_add_knowledge_graph_tables.py:90-262 | Empty tables meet every constraint, so runs may start from them |
| `GraphContributions.IngestSources` | src/tabletop_oracle/services/kg/handoff_impl.py:190-281 | After an ingest every mention has its source on the concept it was integrated into; every other source was there before, and none is left of a version that is replaced |
| `GraphContributions.IngestLinks` | src/tabletop_oracle/services/kg/handoff_impl.py:257-270 | After an ingest every association that the document states between two of its own concepts is linked in that direction with that label, names unique up to case |
| `GraphRuns.IngestThenRemove` | src/tabletop_oracle/services/kg/handoff_impl.py:134-188 | After ingesting a document not seen before, removing it succeeds if and only if the ingest created no alias row, and is then the identity on concepts and, flags aside, on sources |
| `GraphRuns.AliasFreeIngest` | src/tabletop_oracle/services/kg/integration.py:331-347 | A document that brings no aliases creates no alias row |
| `GraphRuns.IngestRanksIff` | src/tabletop_oracle/services/kg/handoff_impl.py:190-281 | Exactly when an ingest, replacing a version or not, leaves the first authoritative source of a concept with maximal priority: if the concept gains a source, when what was left of its sources was ranked or none of them outranks the document; if it gains none, when what was left was ranked or resolving moves the flag to a source of maximal priority |
| `GraphRuns.WithoutGain` | src/tabletop_oracle/services/kg/handoff_impl.py:272-281 | An ingest that adds no source to a concept resolves what was left of its list once, if the concept is among those integrated, and otherwise leaves it alone |
| `GraphRuns.IngestCrownsNewcomer` | src/tabletop_oracle/services/kg/handoff_impl.py:272-281 | If a document, replacing a version or not, outranks every source left of a concept it adds to, exactly its first source is flagged when a flag was left to displace, and exactly all it added otherwise |
| `GraphRuns.IngestRerunIff` | src/tabletop_oracle/services/kg/handoff_impl.py:190-281 | Ingesting a document a second time without replacing its version integrates into the same concepts and changes nothing at all (concepts, associations, the sources of both, flags) if and only if every name of the document, in the graph its concepts were integrated into, leads to the concept it was integrated into |
| `GraphRuns.IngestIsIdempotent` | src/tabletop_oracle/services/kg/handoff_impl.py:190-281 | Checked before the first ingest: names that select only themselves, and aliases that cannot collide, make the second ingest change nothing |
| `GraphRuns.RunRanksIff` | src/tabletop_oracle/services/kg/handoff_impl.py:106-320 | Over every run, in order of time, of ingests, replacing versions or not, and removals: the ranking holds throughout if and only if every step meets its condition on the tables it finds |
| `GraphRuns.ReplacementUnranks` | src/tabletop_oracle/services/kg/handoff_impl.py:190-281 | The failing input: a FAQ is ingested, errata displace it, and a version of lower type replaces the errata; the FAQ is not flagged again and the lower document is authoritative |
| `GraphRuns.RunRanks` | src/tabletop_oracle/services/kg/handoff_impl.py:190-281 | First ingests always meet it, so the ranking holds after every run of them |
| `GraphRuns.RemovalKeepsRankingIff` | src/tabletop_oracle/services/kg/integration.py:232-246 | Removal keeps the ranking of a concept, however many of its sources are flagged, if and only if it takes them all, leaves the first flagged one, or leaves a flagged one of maximal priority as the first |
| `GraphStore.Store.LookupName` | src/tabletop_oracle/repositories/kg_repository.py:51-73 | The stored query returns what the lookup function says |
| `GraphStore.Store.InsertConcept` | src/tabletop_oracle/repositories/kg_repository.py:96-107 | An insert that the unique name may reject, leaving the tables alone |
| `GraphStore.Store.RemoveConcept` | src/tabletop_oracle/repositories/kg_repository.py:109-121 | A delete with its cascades, or a rejection that changes nothing |
| `GraphStore.Store.IntegrateSingleConcept` | src/tabletop_oracle/services/kg/integration.py:261-349 | The branches and the alias loop compute the function whose properties are proved |
| `GraphStore.Store.IntegrateAllConcepts` | src/tabletop_oracle/services/kg/integration.py:77-130 | So does the loop over concepts, with its list of results |
| `GraphStore.Store.IntegrateAllAssociations` | src/tabletop_oracle/services/kg/integration.py:132-177 | So does the loop over associations |
| `GraphStore.Store.IntegrateSingleAssociation` | src/tabletop_oracle/services/kg/integration.py:453-531 | So does one association, skipped when an end is unknown |
| `GraphStore.Store.SetAuthoritative` | src/tabletop_oracle/repositories/kg_repository.py:216-230 | One source of the concept is flagged, its others are not, all other rows keep theirs |
| `GraphStore.Store.ResolveConflicts` | src/tabletop_oracle/services/kg/conflicts.py:64-122 | The decision for a newly added source, branch by branch |
| `GraphStore.Store.ResolveAllConflicts` | src/tabletop_oracle/services/kg/handoff_impl.py:418-446 | The loop over integrated concepts |
| `GraphStore.Store.DeleteSources` | src/tabletop_oracle/services/kg/integration.py:242-246 | Deleting listed rows one by one by identifier deletes exactly the sources of this document on this concept |
| `GraphStore.Store.RemoveFrom` | src/tabletop_oracle/services/kg/integration.py:232-246 | One round of the loop: delete the concept, or only this document's rows, and count |
| `GraphStore.Store.RemoveContributions` | src/tabletop_oracle/services/kg/integration.py:196-259 | The removal loop with its two counters computes the removal function |
| `GraphStore.Store.IngestDocument` | src/tabletop_oracle/services/kg/handoff_impl.py:190-281 | The steps in order, or the tables as they were |
| `GraphStore.Store.RemoveDocumentFromGraph` | src/tabletop_oracle/services/kg/handoff_impl.py:134-188 | Removal as a transaction; it succeeds if and only if no sole-sourced concept has an alias, and returns the sizes of the two sets |
| `GraphStore.Store.DocumentContribution` | src/tabletop_oracle/services/kg/retrieval.py:476-541 | The contribution report lists exactly the sole-source and the shared concepts, each once, and the association sources of the document, in order |
| `Text.SplitConcat` | src/tabletop_oracle/services/ingestion/chunking.py:197-197 | How splitting at blank lines treats a concatenation, newlines that meet across it included |
| `Text.ParagraphsOfJoin` | src/tabletop_oracle/services/ingestion/chunking.py:206-206 | A blank line between two texts separates exactly their paragraphs |
| `Text.ParagraphsOfStrip` | src/tabletop_oracle/services/ingestion/chunking.py:148-151 | Stripping a text keeps its paragraphs |
| `Text.PiecesAreWhole` | src/tabletop_oracle/services/ingestion/chunking.py:197-204 | No piece of a split can be split again |
| `Chunking.FlattenSections` | src/tabletop_oracle/services/ingestion/chunking.py:135-159 | The recursive loop lists non-blank sections in pre-order with their paths |
| `Chunking.FlatteningKeepsParagraphs` | src/tabletop_oracle/services/ingestion/chunking.py:135-159 | Flattening keeps every paragraph of every section, in reading order |
| `Chunking.FlattenedAreSections` | src/tabletop_oracle/services/ingestion/chunking.py:135-159 | Each block is that of a section reached by a way down the tree: its stripped content, the titles on the way joined as path, its own title as heading, its page |
| `Chunking.SectionsAreFlattened` | src/tabletop_oracle/services/ingestion/chunking.py:135-159 | Every section whose content is not blank has its block |
| `Chunking.SplitBlock` | src/tabletop_oracle/services/ingestion/chunking.py:185-219 | The loop yields a greedy packing of the paragraphs: none lost, repeated or reordered, metadata kept, each block its paragraphs joined by blank lines within the target (or one paragraph), none with room for the next; text without a paragraph stays as it is |
| `Chunking.SplitIsUnique` | src/tabletop_oracle/services/ingestion/chunking.py:201-217 | There is only one greedy packing, whatever the tokenizer, so the specification of splitting determines its result |
| `Chunking.MergeUndersized` | src/tabletop_oracle/services/ingestion/chunking.py:221-250 | The merge loop computes the merge function |
| `Chunking.MergingKeepsParagraphs` | src/tabletop_oracle/services/ingestion/chunking.py:221-250 | Merging keeps every paragraph, in order |
| `Chunking.MergedSize` | src/tabletop_oracle/services/ingestion/chunking.py:239-248 | Where a join of trimmed texts costs at most its parts and the separator, a merged block costs at most the target plus one separator, which the size test leaves out |
| `Chunking.SeparatorBoundIsTight` | src/tabletop_oracle/services/ingestion/chunking.py:239-248 | That bound is attained, so the target alone is not a bound |
| `Chunking.MergingSettles` | src/tabletop_oracle/services/ingestion/chunking.py:221-250 | Where a join of trimmed texts costs no less than its first part, no two neighbours can still merge after merging |
| `Chunking.MergingFixesIff` | src/tabletop_oracle/services/ingestion/chunking.py:221-250 | Whatever the tokenizer: merging leaves a list alone if and only if of any two neighbours neither is undersized, or both together exceed the target |
| `Chunking.MergedIsJoinOfRuns` | src/tabletop_oracle/services/ingestion/chunking.py:221-250 | What merging makes of any list: the blocks fall into runs of neighbours, each joined by blank lines under the metadata of its first |
| `Chunking.SizedAndSettledStay` | src/tabletop_oracle/services/ingestion/chunking.py:161-183 | Blocks within the maximum that need no merging pass the size limits unchanged |
| `Chunking.MergingIsIdempotent` | src/tabletop_oracle/services/ingestion/chunking.py:221-250 | Under the same condition a second merge changes nothing |
| `Chunking.MergingIgnoresSections` | src/tabletop_oracle/services/ingestion/chunking.py:233-248 | Which texts are merged depends on the texts alone, never on their sections |
| `Chunking.ApplySizeLimits` | src/tabletop_oracle/services/ingestion/chunking.py:161-183 | First every block above the maximum is split, then the pieces are merged |
| `Chunking.SizeLimitsKeepParagraphs` | src/tabletop_oracle/services/ingestion/chunking.py:161-183 | Both passes together keep every paragraph, in order |
| `Chunking.SizeLimitsBound` | src/tabletop_oracle/services/ingestion/chunking.py:161-183 | Every block is then at most the larger of maximum and target plus separator, or one paragraph |
| `Chunking.AddOverlap` | src/tabletop_oracle/services/ingestion/chunking.py:252-284 | Each block but the first gets the decoded tail of its predecessor as emitted in front |
| `Chunking.OverlapIsTheEnd` | src/tabletop_oracle/services/ingestion/chunking.py:272-276 | The overlap is decoded from the last tokens of the chunk before, as many as configured or as there are |
| `Chunking.OverlapContinues` | src/tabletop_oracle/services/ingestion/chunking.py:252-284 | Where decoding the last tokens of a text gives an end of it, a later block begins with the stripped end of the chunk before it, a blank line between |
| `Chunking.ChunksOverlap` | src/tabletop_oracle/services/ingestion/chunking.py:93-129 | So does every text chunk of a document but the first |
| `Chunking.OverlapKeepsOwnParagraphs` | src/tabletop_oracle/services/ingestion/chunking.py:276-282 | With overlap a block still ends with its own paragraphs |
| `Chunking.AssembleChunks` | src/tabletop_oracle/services/ingestion/chunking.py:113-121 | Text chunks first, then one chunk for each table in order, indices 0 to n-1 |
| `Chunking.TableTextHolds` | src/tabletop_oracle/services/ingestion/chunking.py:309-335 | The text of a table: caption, headers and rule where present, and a line for each row with the first value under each header, or all values without headers |
| `Chunking.TablesAreChunks` | src/tabletop_oracle/services/ingestion/chunking.py:309-345 | Each table is one chunk after the text chunks, with that text, its headers, section and caption, and its token count |
| `Chunking.ChunkDocument` | src/tabletop_oracle/services/ingestion/chunking.py:93-129 | The chunks derive from the sections by flattening, size limits and overlap, followed by the tables, in that order |
| `Chunking.BlocksOfDocument` | src/tabletop_oracle/services/ingestion/chunking.py:93-129 | The blocks before overlap hold exactly the paragraphs of all sections in pre-order; they are sized, and nothing is left to merge |
| `Chunking.ChunksEndWithTheirBlocks` | src/tabletop_oracle/services/ingestion/chunking.py:93-129 | Every text chunk ends with the paragraphs of its block and has its section, heading, page, index and token count |
| `Chunking.CharacterTokenizer` | src/tabletop_oracle/services/ingestion/chunking.py:32-41 | The three hypotheses on tokenizers are satisfiable |
| `Sse.WireRoundTrip` | src/tabletop_oracle/streaming/sse.py:75-88 | Any list of formatted one-line events, concatenated and read as sections 9.2.5 and 9.2.6 of the WHATWG HTML standard say, yields the same ids and data in order |
| `Sse.ParseOne` | src/tabletop_oracle/streaming/sse.py:75-88 | One formatted event at the head of any stream is dispatched as exactly that message |
| `Sse.RoundTripIffOneLine` | src/tabletop_oracle/streaming/sse.py:87-88 | One event survives the wire if and only if its data holds no line end |
| `Sse.BrokenDataIsCut` | src/tabletop_oracle/streaming/sse.py:87-88 | Data with a line end arrives shorter |
| `Sse.RecoverId` | src/tabletop_oracle/streaming/sse.py:204-210 | The scan reads the first `id: ` line as an integer the way Python does, fails when it is none, and keeps the start number when there is no such line |
| `Sse.ScanFindsId` | src/tabletop_oracle/streaming/sse.py:204-210 | It recovers the number of every formatted event, whatever the data |
| `Sse.EventBuffer.Append` | src/tabletop_oracle/streaming/sse.py:56-58 | Appends to the full log and, dropping the oldest beyond one hundred, to the buffer |
| `Sse.EventBuffer.EventsAfter` | src/tabletop_oracle/streaming/sse.py:60-73 | Lazy pruning answers exactly what the full log would: its last hundred entries filtered by age and number |
| `Sse.FilterAfter` | src/tabletop_oracle/streaming/sse.py:66-66 | The raw texts of the entries above a number, in order |
| `Sse.ReplayHolds` | src/tabletop_oracle/streaming/sse.py:60-73 | A replay holds exactly the texts of entries among the last hundred, at most a minute old, numbered above the id of the client |
| `Sse.ReplayIsGapFree` | src/tabletop_oracle/streaming/sse.py:60-66 | A replay misses nothing if and only if nothing was dropped or the client number is at least the oldest retained minus one |
| `Sse.StreamEvents` | src/tabletop_oracle/streaming/sse.py:111-163 | Events and heartbeats are numbered consecutively, buffered as sent, and nothing follows a disconnect or the end of the source |
| `Sse.StreamIsReceived` | src/tabletop_oracle/streaming/sse.py:75-163 | From the generator to the client: one-line data of the rounds arrives exactly, in order, under consecutive ids |
| `Sse.ReplayContinuesNumbering` | src/tabletop_oracle/streaming/sse.py:202-210 | The number recovered from a replay is that of the newest entry |
| `Sse.ParseDecimal` | src/tabletop_oracle/streaming/sse.py:209-209 | Reading a printed number gives the number |
| `Sse.ParseSigned` | src/tabletop_oracle/streaming/sse.py:204-210 | A sign is read, spaces around are not |
| `LikePattern.EscapeLikeIsOnePass` | src/tabletop_oracle/repositories/query_utils.py:8-21 | The three replacements in their order protect each metacharacter exactly once |
| `LikePattern.EscapedLikeIsSubstring` | src/tabletop_oracle/repositories/query_utils.py:8-21 | For all terms and texts, the escaped term between percent signs matches if and only if the term occurs in the text |
| `LikePattern.EscapedIlikeIsSubstring` | src/tabletop_oracle/repositories/game_repository.py:325-329 | The search for short terms is the case-insensitive substring test |
| `LikePattern.MatchEscapedPrefix` | src/tabletop_oracle/repositories/query_utils.py:8-21 | An escaped term consumes exactly itself |
| `LikePattern.SomethingMatchesIff` | src/tabletop_oracle/repositories/kg_repository.py:69-71 | A pattern matches some text if and only if it does not end in a lone backslash |
| `LikePattern.MatchingNeverTrips` | src/tabletop_oracle/repositories/kg_repository.py:69-71 | A pattern that matches some text is found invalid on none |
| `QueryPipeline.FullStreamTerminatesOnce` | src/tabletop_oracle/services/ai/pipeline.py:101-213 | Every stream begins with the started event and ends with its only terminal event |
| `QueryPipeline.FailureEnds` | src/tabletop_oracle/services/ai/pipeline.py:180-292 | When a stage raises from the synthesis on with retrieval results in hand, the stream completes without an error, holds one answer text made of the top five results, cites them in order with name, section and first 200 characters, and states confidence zero; otherwise it ends in SERVICE_UNAVAILABLE and holds no answer |
| `QueryPipeline.OtherEnds` | src/tabletop_oracle/services/ai/pipeline.py:131-207 | Without a failure: the guardrail error, the cancellation after the stages before the check, or completion after all stages |
| `QueryPipeline.HeadForwards` | src/tabletop_oracle/services/ai/pipeline.py:170-179 | Each stage that runs is announced under its title and everything it yields is forwarded, in order |
| `QueryPipeline.StagesRunMeans` | src/tabletop_oracle/services/ai/pipeline.py:155-213 | Stages run until all have, a check saw the cancellation, or one raised |
| `QueryPipeline.LateStartIff` | src/tabletop_oracle/services/ai/pipeline.py:155-179 | A stage starts after a cancel request succeeded if and only if the check that let it pass came before the request |
| `QueryPipeline.AtMostOneStageAfterCancel` | src/tabletop_oracle/services/ai/pipeline.py:155-168 | Once a cancel request succeeded at most one more stage starts, the one whose check had already passed |
| `QueryPipeline.OneLateStart` | src/tabletop_oracle/services/ai/pipeline.py:155-179 | Such a start does happen: the request lands while the stage is announced |
| `QueryPipeline.SynthesisIsFifth` | src/tabletop_oracle/services/ai/pipeline.py:215-227 | The label that decides between a partial answer and an error is that of the fifth stage |
| `QueryPipeline.Query.Execute` | src/tabletop_oracle/services/ai/pipeline.py:101-213 | Under any interleaving the events are those of a prefix of the stages with the right ending, the stages that start are those of that prefix in order, and each starts after a check of its own that let it pass; a cancellation seen at a check ends the stream there, and is never undone; a failure that can be answered leaves its results as the answer text with a score of zero, and nothing else touches the answer |
| `QueryPipeline.Query.CancelMessage` | src/tabletop_oracle/services/message_service.py:177-198 | Succeeds if and only if the message is neither cancelled nor scored; of all requests one succeeds at most |
| `QueryPipeline.Query.OthersAct` | src/tabletop_oracle/services/message_service.py:137-198 | Any number of cancel requests and score writes between two steps disturb neither the events nor a cancellation |
| `QueryPipeline.Query.CheckCancelled` | src/tabletop_oracle/repositories/message_repository.py:85-100 | The check reports the recorded cancellation |
| `QueryPipeline.Query.EmitPartialAnswer` | src/tabletop_oracle/services/ai/pipeline.py:229-292 | Builds the text from the top five results, scores it zero, and emits step, token, citations, confidence and completion |
| `QueryPipeline.Query.RunStage` | src/tabletop_oracle/services/ai/pipeline.py:170-179 | A stage is announced, started and its events forwarded |
| `IngestionPipeline.StandardOrder` | src/tabletop_oracle/services/ingestion/stages.py:64-280 | In the standard order the stages succeed if and only if all are announced, the file is valid, parser and strategy accept it, some chunk comes out and the hand-off succeeds; no stage ever misses an earlier result |
| `IngestionPipeline.SucceedsIff` | src/tabletop_oracle/services/ingestion/pipeline.py:82-138 | An attempt in the standard order succeeds if and only if no call but those of the failure handler is refused, the file is valid and parsed and cut into some chunks with distinct indices, and the hand-off goes through |
| `IngestionPipeline.SuccessTells` | src/tabletop_oracle/services/ingestion/pipeline.py:82-138 | A success leaves the chunks as cut and the status PROCESSED, and publishes the start, the five stages in order and the completion with their number |
| `IngestionPipeline.AnnouncedInOrder` | src/tabletop_oracle/services/ingestion/pipeline.py:103-116 | When all stages can be announced, the last one announced is the one that raises, for each way to raise |
| `IngestionPipeline.StatusCases` | src/tabletop_oracle/services/ingestion/pipeline.py:82-138 | The status an attempt leaves, case by case |
| `IngestionPipeline.Database.Process` | src/tabletop_oracle/services/ingestion/pipeline.py:82-138 | One attempt in its own session, any call refused: other versions keep their rows, and the rows left, the status and the events are those the attempt decides; success leaves exactly its chunks |
| `IngestionPipeline.EndsInErrorIff` | src/tabletop_oracle/services/ingestion/pipeline.py:261-286 | A failed attempt ends in ERROR with an error event if and only if it entered the protected block, no statement inside it was rejected (nobody rolls the session back), and the three calls of the handler go through |
| `IngestionPipeline.RejectedCommitIsStuck` | src/tabletop_oracle/services/ingestion/pipeline.py:234-286 | The failing input: chunks with equal indices lose the session, so the document stays in PARSING with no terminal event and no rows |
| `IngestionPipeline.LeftBehindIff` | src/tabletop_oracle/services/ingestion/pipeline.py:118-138 | Chunks outlive a failed attempt if and only if they were stored and a later statement, or the delete of the handler, was refused |
| `IngestionPipeline.AtMostOneTerminal` | src/tabletop_oracle/services/ingestion/pipeline.py:96-138 | Events come in order: started, the stages, then at most one of completed and error, at the end |
| `IngestionPipeline.Database.Retry` | src/tabletop_oracle/services/ingestion/pipeline.py:82-138 | After any failed attempts, whatever they left, a success leaves exactly its own chunks with distinct indices |
| `IngestionPipeline.Database.RunAllStages` | src/tabletop_oracle/services/ingestion/pipeline.py:103-116 | One event for each stage that starts, none after a failure |
| `IngestionPipeline.Database.PersistChunks` | src/tabletop_oracle/services/ingestion/pipeline.py:234-259 | All rows or none, the unique index being checked at the commit; a rejected commit loses the session |
| `IngestionPipeline.Database.HandleFailure` | src/tabletop_oracle/services/ingestion/pipeline.py:261-286 | On a usable session: delete, status and event in order up to the first refusal; on a lost one nothing |
| `IngestionPipeline.Database.CleanupChunks` | src/tabletop_oracle/services/ingestion/pipeline.py:216-232 | Afterwards no row of this version remains and every row of other versions does; on a lost session nothing changes |
| `Numbering.RunKeepsContiguous` | src/tabletop_oracle/services/message_service.py:109-116 | Under any interleaving of readers, clarifications, inserters and abandoned submissions the sequences are exactly 1 to n, and n counts the accepted inserts |
| `Numbering.ReplyNeedsLatest` | src/tabletop_oracle/services/ai/stages/clarification.py:217-228 | A clarification, numbered after its question without reading the maximum, is accepted if and only if the question is still the latest message |
| `Numbering.OneWinnerPerNumber` | src/tabletop_oracle/repositories/message_repository.py:102-132 | An insert is accepted if and only if its number is still the next one |
| `Numbering.ReadThenInsert` | src/tabletop_oracle/repositories/message_repository.py:102-132 | A submission that reads and inserts undisturbed gets the number after the last, is accepted, and becomes the last |
| `Numbering.OthersKeepTheirNumbers` | src/tabletop_oracle/services/message_service.py:60-135 | Nothing a client does changes what another one holds |
| `Numbering.Session.GetNextSequence` | src/tabletop_oracle/repositories/message_repository.py:102-118 | The maximum plus one, or one |
| `Numbering.Session.CreateMessage` | src/tabletop_oracle/repositories/message_repository.py:120-132 | The insert, or its rejection by the unique key |
| `Numbering.Session.HoldSuccessor` | src/tabletop_oracle/services/ai/stages/clarification.py:217-218 | A clarification holds the number after its question |
| `Numbering.Session.RunAll` | src/tabletop_oracle/services/message_service.py:60-135 | Any schedule of these calls computes the run function |
| `Numbering.UploadsStayInStep` | src/tabletop_oracle/services/document_service.py:417-446 | Under any interleaving of uploads and processing, versions are exactly 1 to the current one, only the last is active, and path and size are its own; no stored file is lost |
| `Numbering.AcceptedIffUnchanged` | src/tabletop_oracle/services/document_service.py:417-437 | An upload is accepted if and only if no other was since it read the document |
| `Numbering.UploadBecomesNext` | src/tabletop_oracle/services/document_service.py:363-455 | An undisturbed upload becomes the next version, active, with its file, and puts the document back to UPLOADED |
| `Numbering.RejectedUploadIsOver` | src/tabletop_oracle/services/document_service.py:417-437 | A rejected upload changes nothing else |
| `Numbering.Document.FinishUpload` | src/tabletop_oracle/services/document_service.py:425-446 | Deactivate, insert and update as one transaction |
| `Numbering.Document.RunUploads` | src/tabletop_oracle/services/document_service.py:363-455 | Any schedule of uploads computes the run function |
| `Numbering.Document.ActiveVersion` | src/tabletop_oracle/repositories/document_repository.py:219-236 | Exactly one version is active: the current one |
| `Numbering.Document.constructor` | src/tabletop_oracle/services/document_service.py:176-210 | The first upload |
| `Identity.ApplyKeeps` | src/tabletop_oracle/auth/user_service.py:57-104 | No login violates a unique key or changes a binding; one that succeeds leaves its subject bound to the user returned |
| `Identity.PlayKeeps` | src/tabletop_oracle/auth/user_service.py:57-104 | Over every sequence of logins and account switches emails and subjects stay unique and no bound identity is bound again |
| `Identity.OneUserPerSubject` | src/tabletop_oracle/auth/user_service.py:57-104 | Once a login succeeded, every later login with that subject returns the same user, whatever its email, or finds the account disabled |
| `Identity.FirstLogin` | src/tabletop_oracle/auth/user_service.py:57-104 | When nobody is bound to the subject: a user of that email bound to another subject keeps the email, a disabled one stays out, a seeded one is bound and keeps role and email, and a new email gets a new user, a curator exactly when configured; nobody else changes |
| `Identity.LaterLogin` | src/tabletop_oracle/auth/user_service.py:57-74 | A bound subject logs its user in, whatever the email, and changes only the time of login; a disabled user stays out |
| `Identity.SwitchDecides` | src/tabletop_oracle/auth/user_service.py:57-74 | Switching an account decides the next login of its subject |
| `Identity.LookupsAreUnambiguous` | src/tabletop_oracle/auth/user_service.py:57-74 | Each of the two lookups finds one user at most |
| `Identity.UserTable.FindOrCreate` | src/tabletop_oracle/auth/user_service.py:28-104 | The four paths, with the whole new table |
| `Identity.UserTable.PlayAll` | src/tabletop_oracle/auth/user_service.py:28-104 | Any sequence of calls computes the run function |
| `AuthSessions.RecordLags` | src/tabletop_oracle/auth/session_store.py:105-130 | The recorded activity lags the last accepted request by at most one hour |
| `AuthSessions.GapDecides` | src/tabletop_oracle/auth/middleware.py:184-219 | A request is accepted when the idle gap is at most the timeout less one hour, and rejected when it exceeds the timeout |
| `AuthSessions.RunSession` | src/tabletop_oracle/auth/middleware.py:184-219 | Over every run of requests and cleanups the verdicts are those of the record alone: deleting expired rows is never noticed |
| `AuthSessions.SessionStore.Create` | src/tabletop_oracle/auth/session_store.py:55-87 | A session that expires one timeout after its creation |
| `AuthSessions.SessionStore.Touch` | src/tabletop_oracle/auth/session_store.py:105-130 | The conditional update: nothing within the hour, else activity and expiry together |
| `AuthSessions.SessionStore.Dispatch` | src/tabletop_oracle/auth/middleware.py:184-219 | Accepted if and only if the session exists, has not expired and its user is active; only then touched |
| `AuthSessions.SessionStore.Delete` | src/tabletop_oracle/auth/session_store.py:133-141 | Logging out deletes that session and no other |
| `AuthSessions.SessionStore.CleanupExpired` | src/tabletop_oracle/auth/session_store.py:159-171 | Deletes exactly the expired sessions and counts them |
| `Conversation.FetchIsSuffix` | src/tabletop_oracle/services/ai/conversation.py:267-337 | The descending, limited, re-sorted query returns the last messages of the ascending one |
| `Conversation.FetchIsAscending` | src/tabletop_oracle/services/ai/conversation.py:302-337 | Without a limit: exactly the selected messages in ascending order |
| `Conversation.BeforeWindowIsPrefix` | src/tabletop_oracle/services/ai/conversation.py:170-173 | What comes before the oldest message of the window is the rest of the history |
| `Conversation.SortedIsUnique` | src/tabletop_oracle/services/ai/conversation.py:305-335 | Rows sorted by distinct sequences are determined by which rows they are |
| `Conversation.ConversationContextService.GetContext` | src/tabletop_oracle/services/ai/conversation.py:112-146 | The whole of a short conversation, else the last fifteen messages |
| `Conversation.ConversationContextService.BuildSummary` | src/tabletop_oracle/services/ai/conversation.py:148-190 | A summary of the messages before a sequence, or none |
| `Conversation.ConversationContextService.GetContextWithSummary` | src/tabletop_oracle/services/ai/conversation.py:192-240 | A summary covers exactly the messages left of the window, without gap or overlap; when summarising fails the window is the last thirty messages; without a summariser it is the last fifteen |
| `Conversation.GenerateSummary` | src/tabletop_oracle/services/ai/conversation.py:339-361 | Questions speak as the user, everything else as the assistant, after the system prompt |

## Left out

- GraphIntegration.IntegrationIsIdempotent: its condition, checked before the first call, is sufficient; the exact one (`RerunIff`) is checked after it.
- GraphIntegration.IntegrateConceptsUnique: that every name stays apart is necessary name by name (`CollisionIff`), not run by run.
- GraphRuns.IngestIsIdempotent: its condition, too, is sufficient; the exact one is `IngestRerunIff`.
- GraphRuns.RunRanks: is the case in which the condition of `RunRanksIff` is always met; removals, and replacements of a version, which first remove its sources, flags included, may fail to meet it.
- Traversal.TraversalIsShortestPaths: which of several equally short rows is reported is left open, as the query leaves it open.
- KnowledgeGraph.FindByName: patterns are compared with the rows of the game alone, as the filter stands first; case folding may be any that goes character by character, leaves `%`, `_` and the backslash alone, makes none and folds once and for all, but is the same in the database and in the service, and never folds one character to several.
- Chunking.MergedSize: assumes of the tokenizer that a join of two trimmed texts costs at most both and the separator; Chunking.MergingSettles and Chunking.MergingIsIdempotent that it costs no less than its first text.  Chunking.OverlapContinues that decoding its last tokens gives an end of a trimmed text, which fails where a token cuts a character.  Nothing is assumed of other texts, and the tokenizer itself is not part of this model.
- Sse.WireRoundTrip: payloads are given as one-line texts; JSON encoding and timestamps are not modelled, and neither is a timeout that cancels the event source.
- Sse.RecoverId: digits other than ASCII, which Python's `int` also takes, are not modelled.
- Sse.EventBuffer.EventsAfter: speaks of one buffer; `sse_response` creates a new one for each call, so nothing is replayed across calls.
- QueryPipeline.Query.Execute: stages emit no terminal events and checks do not raise; a cancel request that arrives after the last check does not stop completion.
- QueryPipeline.Query.CancelMessage: reading and writing are one step, that is, requests are serialised; ownership checks are not modelled.
- IngestionPipeline.Database.Process: parser output is abstract, stages do not use the session, and a task killed in mid-attempt is not modelled.
- Identity.UserTable.FindOrCreate: logins are serialised; display names and unique-key failures between concurrent logins are not modelled.
- AuthSessions.SessionStore.Dispatch: one clock reading serves the whole request, session ids are well formed, and the timeout is constant; bypass mode and public paths are not modelled.
- Numbering.Document.FinishUpload: blob storage, file checks and formats are not modelled; a rejected upload leaves the document as it was.
- GraphStore.Store.IngestDocument: a failing ingest or removal is a transaction rolled back; extraction, association discovery, embeddings, events and the audit log are outside, their results being parameters.
- Identifiers are natural numbers from a fresh counter, and tables keep insertion order, which the source queries assume but do not request.
- Columns that only describe (source text, section paths, version ids of sources, semantic labels of nodes) and the versions of a document within the graph are not modelled.
- A unique authoritative source and re-promotion of a source on removal are not claimed: new sources are flagged by default and removal never resolves conflicts again.
- Association sources of a removed document are not claimed to go: only those of associations that lose an end do.
- Semantic search, source listings of a concept, usage figures, pagination, tags, roles and routing are not modelled.
