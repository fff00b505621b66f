# Sidegraph: a verified model

Sidegraph keeps architecture decisions, the checks that watch them and the domains they
belong to as plain files in a repository, and answers agents from that store. This project
models its algorithms with the strongest contracts and proves what they promise, for all
inputs and all runs.

`dafny verify dfyconfig.toml` checks everything.

## Reading order

Each part is a few modules. Where the program updates state step by step, the model has a
method or a class with loops, proved equal to a specification function; the promises are
lemmas about that function.

- **Drift checks** (`CheckStore`, `CheckKeys`, `CheckFold`, `CheckPlanner`, `CheckProtocol`,
  `CheckFixpoint`, `CheckFormat`). Check files and the lines of `verifications/packed.shard` become
  occurrences; per decision the highest key wins. A fold packs files into the shard and drops
  dead ones. `CheckProtocol` runs a reader beside any number of folds as a step system with
  crashes. `CheckFormat` shows that the encoder's laws can be met.
- **Domain membership** (`DomainSnapshot`, `DomainBuilder`, `DomainReordering`,
  `DomainRenumbering`, `DomainLineage`). Membership is stored as one default per file plus exceptions, and read back
  by id, by a unique stable name, by stub key or by the vote of the community.
- **Document import** (`DocStore`, `DocImport`, `DocRuns`, `DocDryRun`, `DocPreview`,
  `DocRetraction`, `DocImporter`, `DocSplit`). Records at one reference move between proposed, accepted, rejected and
  superseded; a dry run must say what the real run would do. `DocSplit` cuts a section into
  child records.
- **ADR export** (`AdrIdentity`, `AdrFiles`, `AdrRoundTrip`, `AdrExport`, `AdrFixpoint`,
  `AdrSettled`, `AdrPlanner`). Managed file regions with a checksum, and a planner that numbers
  files, never touches what it does not own, and reaches a fixpoint.
- **Delivery ledger** (`DeliveryTables`, `DeliveryAppend`, `DeliveryLedger`). Three linked
  tables under age and capacity eviction.
- **Checkout window** (`CheckoutWindow`). Waiting for a marker file while Git may be rewriting
  it: the world is a history, and the proof is for every delay of every observation.
- **Shell lines** (`BashTokens`, `BashWalk`), **input limits** (`InputLimits`), **domain
  splits** (`DomainSplits`), **tree lookup** (`TreeLayers`).
- `Wrappers`, `Bounds`, `Instants`, `Ordering` and `Sequences` hold what several parts share.

JSON text, digests, canonical names, slugs, case folding, path resolution and the rendering of
prose are parameters of the model. Where a law about one of them is needed it is an explicit
precondition: `CheckStore.Lawful` (decoding an encoded body gives it back) and
`AdrFiles.HexHash` (the digest is 64 hexadecimal characters).

## Where the code and its descriptions differ

- `tree_entries_all` promises every entry kind with path sets over the argument budget split
  rather than dropped, but a single path over the budget drops the path arguments, and then a
  directory below the top level is not found: `TreeLayers.LongDirectoryMissed`.
  `TreeLayers.TreeEntriesAll` states exactly when.
- The dry run asks the unchanged store for pending successors, so a reference that starts with
  an accepted record and a pending record over it can be previewed wrongly.
  `DocPreview.ContestedMisleads` gives the documents; `DocPreview.DryRunExact` gives the exact
  condition for accepted and proposed documents.
- The dry run also forgets a proposal it drops, which the real run keeps as a rejected record, so
  a later document that rejects that text is previewed wrongly. `DocRetraction.RetractionMisleads`
  and `DocRetraction.ForgottenMisses` give the documents. A document that inherits the anchors of
  a record of the same run is previewed wrongly too (`DocRetraction.InheritedMisleads`).
  `DocDryRun.DryRunExactly` says which documents are missed, `DocRetraction.PreviewsKeepingExactly` and `PreviewsAllExactly` at which
  references none can be.
- Converting line endings is not idempotent on `\r\r\n`, and it is applied once when printing
  and again in the checksum, so a text ending in `\r\r` is printed as a file that reads as edited
  (`AdrRoundTrip.TwoReturnsRefused`). `AdrRoundTrip.WrapParses` states exactly which texts come back.
- Planning a fold again after committing the shard can have work, if the first plan ran on an
  uncommitted shard: `CheckFixpoint.DirtyShardFoldsTwice`. `CheckFixpoint.RefoldCommitted` states
  exactly when, on the arguments of the first plan.

## Model

| member | source | states |
|---|---|---|
| `CheckFold.FoldPreservesChoice` | src/sidegraph/check_fold.py:144-205 | Whatever part of an allowed fold a reader sees, it chooses for every decision that is not terminal-and-clean the same key, an equal body, the same conflict verdict and the same validation outcome as over the original store; equal keys, damaged but dead lines, kept dirty files and a dirty shard included |
| `CheckFold.FoldPreservesMeaning` | src/sidegraph/check_fold.py:108-205 | The store left by a fold carried out in full selects as the store before it, for every decision that is not terminal-and-clean |
| `CheckFold.WinnerSeen` | src/sidegraph/check_fold.py:172-194 | The winning check of a decision that is not terminal-and-clean is never lost: it is a surviving file or a line of the image |
| `CheckFold.SeenConflictFree` | src/sidegraph/check_fold.py:144-147 | Files and image lines together never hold one key with two bodies when the original store did not |
| `CheckFold.LiveCandidateInImage` | src/sidegraph/check_fold.py:185-197 | Every live candidate is in the published image with its own body |
| `CheckFold.ImageFacts` | src/sidegraph/check_fold.py:201-204 | The image is sorted by strictly increasing key, every body in it encodes and decodes to itself, and each comes from a live candidate of the store |
| `CheckFold.ImageLinesFacts` | src/sidegraph/check_fold.py:201-204 | A reader of the image finds one line per body, in order, each valid and packable, with pairwise distinct keys |
| `CheckFold.SortedBodiesSorted` | src/sidegraph/check_fold.py:201-204 | Sorting the chosen bodies by key keeps all of them and gives strictly increasing keys |
| `CheckFold.WinnerIsLive` | src/sidegraph/check_fold.py:172-176 | No fold rule makes the winner of a decision dead unless the decision is terminal-and-clean |
| `CheckFold.PackableMeans` | src/sidegraph/drift_checks.py:134-141 | A body is packable exactly when it encodes and holds no NaN |
| `CheckStore.RenderReadsBack` | src/sidegraph/drift_checks.py:124-131 | Rendering encodable bodies as shard lines and reading the bytes back gives exactly those bodies, in order, with consecutive line numbers |
| `CheckStore.ConflictingKeys` | src/sidegraph/drift_checks.py:214-225 | The loop returns exactly the keys that two selectable occurrences hold with unequal bodies; none is returned exactly when the store is conflict-free |
| `CheckStore.HighestPerDecision` | src/sidegraph/drift_checks.py:249-256 | The loop keeps, per decision, the first occurrence of the highest key |
| `CheckStore.SelectChecks` | src/sidegraph/drift_checks.py:244-262 | The selection of every decision, its conflict flag included, is that of the specification |
| `CheckStore.BestIsHighest` | src/sidegraph/drift_checks.py:244-256 | No selectable occurrence of a decision has a higher key than the selected one |
| `CheckStore.AgreeOnBest` | src/sidegraph/drift_checks.py:244-262 | Two conflict-free stores select alike for a decision when each check of the second repeats one of the first and the winner of the first is repeated in the second |
| `CheckKeys.OrderIsNumeric` | src/sidegraph/drift_checks.py:255-256 | Comparing two check keys as strings is comparing the base-32 numbers they spell |
| `CheckPlanner.PlanCheckFold` | src/sidegraph/check_fold.py:108-205 | The imperative planner is unblocked exactly when the store is readable, conflict-free and has no live damaged line; then its plan is the specified one; outside Git it keeps every file; a blocked plan touches nothing and names what blocked it |
| `CheckPlanner.PlanImage` | src/sidegraph/check_fold.py:149-205 | After the conflict test the plan is blocked exactly by a damaged line that is not dead, and names the first such line |
| `CheckPlanner.SortFiles` | src/sidegraph/check_fold.py:135-142 | The loop splits the check files into the eligible ones and the kept ones with their reason |
| `CheckPlanner.TopKeys` | src/sidegraph/check_fold.py:166-170 | The loop finds the highest superseding key of every decision |
| `CheckPlanner.FirstBlocking` | src/sidegraph/check_fold.py:178-183 | The first damaged line in order that is not dead is found exactly when there is one |
| `CheckPlanner.CollectedIsPlanned` | src/sidegraph/check_fold.py:185-200 | Packed are exactly the paths of live candidate files, dropped those of dead ones, and the plan remembers the bytes of each |
| `CheckProtocol.ReaderNeverMisled` | src/sidegraph/drift_checks.py:162-207 | In every interleaving of a reader (list, read or skip each file, read the shard last) with any number of folds, each planned over what the one before left, each publishing, unlinking in any order and possibly stopping for good at any step, a finished reader selects as before the first fold, for every decision none of the folds found terminal-and-clean |
| `CheckProtocol.StepKeeps` | src/sidegraph/drift_checks.py:162-207 | Every step of the reader, of a fold, or to the next fold keeps the protocol invariant |
| `CheckProtocol.RunKeeps` | src/sidegraph/drift_checks.py:162-207 | The protocol invariant holds in every state of every run |
| `CheckProtocol.CurrentDerived` | src/sidegraph/check_fold.py:144-205 | However far a fold has come, the store still repeats only checks of the first store and holds its winner |
| `CheckProtocol.InterruptedUnblocked` | src/sidegraph/check_fold.py:178-183 | A store left by an interrupted fold can always be planned again, whatever has become dirty or terminal since |
| `CheckProtocol.InterruptedFoldRecovers` | src/sidegraph/check_fold.py:108-205 | Carrying out the plan made after an interruption gives the selection of the original store (the same image is not promised) |
| `CheckFixpoint.RefoldUncommitted` | src/sidegraph/check_fold.py:71-72 | Planning again over the folded store while the shard is uncommitted, the unlinked files listed as deleted or not, is unblocked, has no work and renders the same image bytes |
| `CheckFixpoint.RefoldImage` | src/sidegraph/check_fold.py:185-204 | When no image line is dead, planning again renders the same bytes |
| `CheckFixpoint.RefoldCommitted` | src/sidegraph/check_fold.py:162-176 | After the shard is committed, planning again has work exactly when the first plan was made over an uncommitted shard with two good checks of one decision, the older at or above every eligible file of it |
| `CheckFixpoint.TwoLinesExactly` | src/sidegraph/check_fold.py:162-194 | The image holds two lines of one decision exactly under that condition on the planner's arguments |
| `CheckFixpoint.DirtyShardFoldsTwice` | src/sidegraph/check_fold.py:162-176 | A concrete uncommitted shard of three good lines: its fold, committed, needs a second fold, in every lawful format |
| `CheckFixpoint.SomeShardFoldsTwice` | src/sidegraph/check_fold.py:162-176 | Such a store exists |
| `CheckFormat.PlainIsLawful` | src/sidegraph/drift_checks.py:134-141 | An encoder and a decoder with the promised laws exist |
| `CheckFixpoint.CommittedShardOneLine` | src/sidegraph/check_fold.py:162-176 | A plan made on a committed shard never leaves two lines of one decision |
| `CheckFixpoint.RefoldCommittedFixpoint` | src/sidegraph/check_fold.py:71-72 | If the first plan ran on a committed shard, planning again after the commit has no work |
| `CheckFixpoint.RefoldValid` | src/sidegraph/check_fold.py:108-147 | The arguments the planner gets after a fold are well-formed and conflict-free |
| `DomainSnapshot.SnapshotRoundTrip` | src/sidegraph/domain_snapshot.py:294-431 | For every graph with unique node ids and every membership map, reading a built snapshot over the same graph gives each node exactly the slugs that listed it, path-less nodes with differing sets included |
| `DomainSnapshot.FileReadsBack` | src/sidegraph/domain_snapshot.py:376-393 | A file entry built from its nodes gives every one of them its own set back |
| `DomainSnapshot.StubReadsBack` | src/sidegraph/domain_snapshot.py:333-351 | A path-less node finds its own set in the stubs, whichever of the two forms its group took |
| `DomainSnapshot.BuiltIsValid` | src/sidegraph/domain_snapshot.py:190-211 | A built snapshot meets every validator exactly when the covered slugs are slugs, their record ids differ and the file paths are acceptable |
| `DomainSnapshot.BuiltDomainsValid` | src/sidegraph/domain_snapshot.py:155-211 | The list of covered domains is valid exactly when its slugs are slugs and no two share a record id |
| `DomainBuilder.BuildSnapshot` | src/sidegraph/domain_snapshot.py:294-362 | The builder refuses exactly when the covered slugs and the record ids differ; otherwise its result is a snapshot as specified: every file listed, entries exactly for the nodes off the default, one stub per key |
| `DomainBuilder.FileDefault` | src/sidegraph/domain_snapshot.py:283-291 | The default is the file node's set, else a set no other beats by count, then by sorted order |
| `DomainBuilder.MatchListed` | src/sidegraph/domain_snapshot.py:376-393 | The two counters and the two indexes give every node of a file exactly its specified set |
| `DomainBuilder.RecordedSets` | src/sidegraph/domain_snapshot.py:396-431 | Listed are exactly the nodes of listed files, and every node gets its specified set: entry, stub or vote |
| `DomainBuilder.Tally` | src/sidegraph/domain_snapshot.py:421-430 | A slug wins a community exactly when more than half of its listed nodes hold it |
| `DomainRenumbering.RenumberingSurvives` | src/sidegraph/domain_snapshot.py:376-431 | Over a rebuilt graph, renumbered and listed in any order, in which no node takes the id of another entry of its file, a node keeps its recorded set exactly when it kept its id, held the default, or has a stable label and a name unique in its file |
| `DomainRenumbering.FileSurvives` | src/sidegraph/domain_snapshot.py:376-393 | The same, exactly, for the nodes of one file |
| `DomainRenumbering.StableGraphSurvives` | src/sidegraph/domain_snapshot.py:376-393 | Label-stable nodes with names unique in their file all keep their sets, however the engine renumbers and reorders them |
| `DomainRenumbering.StubSurvives` | src/sidegraph/domain_snapshot.py:410-430 | A path-less node survives renumbering when its group agreed on one set or it kept its id; otherwise an id no node of the group had falls back to the vote |
| `DomainRenumbering.StubFollowsId` | src/sidegraph/domain_snapshot.py:410-420 | A path-less node that now has the id of another of its name and type takes that one's set |
| `DomainReordering.ReadingIgnoresOrder` | src/sidegraph/domain_snapshot.py:376-431 | Every node reads the same set, votes included, from a graph and from any reordering of it |
| `DomainRenumbering.EntryTakenOnce` | src/sidegraph/domain_snapshot.py:386-393 | In any graph at most one node takes any entry of a file |
| `DomainLineage.SlugOf` | src/sidegraph/domain_snapshot.py:434-447 | The walk over the supersedes chain returns the slug of the first covered record, and none exactly when no record of the chain is covered, cyclic chains included |
| `DomainLineage.SnapshotHeirs` | src/sidegraph/domain_snapshot.py:450-464 | A domain is heir of a slug exactly when it is the only accepted domain holding it; a slug is a split exactly when several hold it, and the split lists all of them, sorted |
| `DocRuns.RunKeepsInv` | src/sidegraph/doc_import.py:2497-2543 | Over every run of document writes interleaved with ratify, drop and agent steps: at most one accepted and one proposed record per reference, a pending record only ever supersedes an accepted record of its reference, and accepted records are heads |
| `DocRuns.RunGrows` | src/sidegraph/doc_import.py:2497-2543 | Over every run no record disappears, changes its text, reference or predecessor, and statuses only move forward |
| `DocRuns.WriteKeepsInv` | src/sidegraph/doc_import.py:2497-2543 | The store accepts every document write, which keeps the invariant |
| `DocRuns.WriteSupersedesAccepted` | src/sidegraph/doc_import.py:2441-2464 | A write adds one record; what it supersedes was accepted at that moment, and a proposed write closes nothing |
| `DocRuns.RepeatIsSkipped` | src/sidegraph/doc_import.py:2292-2300 | Repeating a request that was just written is skipped as existing and changes nothing |
| `DocRuns.RatifyNeverRefused` | src/sidegraph/store.py:4425-4540 | In a reachable store the decision checks never refuse the ratification of a pending record (the checks of facts that ride along are not modelled) |
| `DocRuns.RatifyKeepsInv` | src/sidegraph/store.py:4425-4530 | Ratifying keeps the invariant and only moves statuses forward |
| `DocRuns.DropKeepsInv` | src/sidegraph/store.py:4550-4574 | Dropping a pending record keeps the invariant |
| `DocRuns.AgentKeepsInv` | src/sidegraph/store.py:3439-3509 | A record an agent adds without a document reference keeps the invariant |
| `DocRuns.ReplaceIsApplied` | src/sidegraph/doc_import.py:2527-2531 | Dropping the pending record and adding the new one is never refused by the store, and is one replacement |
| `DocStore.PendingSuccessor` | src/sidegraph/store.py:3367-3384 | No pending successor is reported exactly when no other proposed record supersedes the target |
| `DocStore.PendingSuccessorLowest` | src/sidegraph/store.py:3367-3384 | The one reported is the lowest |
| `DocDryRun.DryRunSimulates` | src/sidegraph/doc_import.py:2134-2169 | For every sequence of documents of any status, with or without anchors of their own, at references that are not contested, none of them missed, the dry run reports for each document the action of the real run, and its memory stays related to the store the real run leaves |
| `DocDryRun.DryRunExactly` | src/sidegraph/doc_import.py:2134-2169 | At uncontested references the preview of any documents is right exactly when none is missed: none rejects a text the run dropped and nothing else rejects, and none finds anchors to inherit in one run only |
| `DocDryRun.SameClassification` | src/sidegraph/doc_import.py:2303-2388 | One document is classified alike in both runs exactly unless it is missed in one of those two ways |
| `DocDryRun.ShadowIsStoreMinusDropped` | src/sidegraph/doc_import.py:2467-2494 | At each reference the dry run remembers, its records are the store's minus the proposals this run dropped, which are rejected there |
| `DocPreview.DryRunExact` | src/sidegraph/doc_import.py:2303-2405 | At a reference, every sequence of own-anchored accepted or proposed documents is previewed with the real actions if and only if the reference does not start with an accepted record and a pending one |
| `DocPreview.ContestedMisleads` | src/sidegraph/doc_import.py:2365-2388 | At a contested reference two new proposed texts are a concrete miss: the dry run reports the second as skipped, the real run writes it |
| `DocRetraction.PreviewsRemembered` | src/sidegraph/doc_import.py:2134-2169 | The simulation from conditions read off the store and the documents: no contested reference, no rejected document repeating a stored or earlier proposal unless a rejected record of that text is stored, and a document without an anchor of its own is the first of the run at its reference |
| `DocRetraction.PreviewsKeepingExactly` | src/sidegraph/doc_import.py:2303-2405 | Every sequence of own-anchored documents of any status that takes back no proposal of its own is previewed right if and only if the reference is not contested and holds no pending record without a rejected twin |
| `DocRetraction.PreviewsAllExactly` | src/sidegraph/doc_import.py:2303-2405 | Every sequence of own-anchored documents of any status is previewed right if and only if a pending record outside the reference supersedes its accepted one, so that nothing is written |
| `DocRetraction.RetractionMisleads` | src/sidegraph/doc_import.py:2467-2494 | At any other uncontested reference two new proposals and a document rejecting the first are a concrete miss |
| `DocRetraction.ForgottenMisses` | src/sidegraph/doc_import.py:2467-2494 | A new proposal and a document rejecting the pending record it dropped are a concrete miss |
| `DocRetraction.InheritedMisleads` | src/sidegraph/doc_import.py:2324-2338 | A document that would inherit the anchors of the proposal written just before it is a concrete miss |
| `DocImporter.Importer.ApplyDocState` | src/sidegraph/doc_import.py:2497-2543 | The write method leaves exactly the store, bindings and action of the specified write |
| `DocImporter.Importer.ImportOneRecord` | src/sidegraph/doc_import.py:2069-2241 | A dry run leaves store and bindings alone and takes the specified shadow step; a real run leaves the shadow alone and takes the specified write; the report counts the action |
| `DocImporter.Importer.ImportDocs` | src/sidegraph/doc_import.py:1666-2050 | The loop over the documents is the specified dry or real run, and its report tallies the actions |
| `DocImporter.SameReport` | src/sidegraph/doc_import.py:2206-2224 | Equal actions give equal report counts in the dry and the real run |
| `DocSplit.SectionPartition` | src/sidegraph/doc_import.py:833-890 | Heading, intro, child headings and child bodies tile the section: no line lost, none repeated, no child past the section end |
| `DocSplit.HeadingPositions` | src/sidegraph/doc_import.py:504-519 | Every heading outside a fence is listed once, in line order, and nothing else |
| `DocSplit.SplitSectionChildren` | src/sidegraph/doc_import.py:833-890 | The split is the first candidate heading of level 2 or less after the title, with the children of its own section |
| `DocSplit.InnerIsSection` | src/sidegraph/doc_import.py:874-884 | The level-3 headings before the section end are exactly the leading ones; none lies beyond it |
| `DocSplit.FreeFragment` | src/sidegraph/doc_import.py:1113-1118 | The suffix loop ends for every finite set of used fragments and returns the first free candidate |
| `DocSplit.TriesDiffer` | src/sidegraph/doc_import.py:1114-1117 | No two suffixes give the same candidate |
| `DocSplit.ChildRecords` | src/sidegraph/doc_import.py:1107-1136 | One record per child with a choice, in order, with its title and choice and the first fragment still free; fragments of one file are pairwise distinct |
| `DocSplit.ChosenExactly` | src/sidegraph/doc_import.py:1107-1111 | The children that give a record are, in order, exactly those whose body is not redacted to nothing |
| `DocSplit.ReferencesDiffer` | src/sidegraph/doc_import.py:1119-1119 | Records of one file with distinct fragments have distinct references |
| `AdrRoundTrip.PlainRoundTrip` | src/sidegraph/adr_files.py:64-103 | For every text without a carriage return, printing the escaped text and parsing the file returns the same id, number, newline-terminated body, byte-order mark and old tail |
| `AdrRoundTrip.WrapParses` | src/sidegraph/adr_files.py:55-103 | For every text: the printed file parses back, line endings converted, if and only if `\r\r\r\n` does not occur in the text and `\r\r` does not end it, or the digest fails to tell two bodies apart; any other file reads as edited |
| `AdrRoundTrip.TwoReturnsRefused` | src/sidegraph/adr_files.py:55-103 | A concrete miss: a text ending in two carriage returns is printed as a file that reads as edited |
| `AdrRoundTrip.BodyStutters` | src/sidegraph/adr_files.py:94-96 | The printed body has a carriage return before a CRLF exactly when the text is of that kind |
| `AdrRoundTrip.EscapeStutters` | src/sidegraph/adr_identity.py:41-47 | Escaping neither makes nor removes such a text |
| `AdrRoundTrip.LfStable` | src/sidegraph/adr_files.py:55-56 | A second line-ending conversion changes nothing exactly when the text has no `\r\r\n` |
| `AdrRoundTrip.FirstEndIsPrinted` | src/sidegraph/adr_files.py:79-83 | In a body without reserved lines the first closing marker found is the printed one |
| `AdrRoundTrip.ParsedRegion` | src/sidegraph/adr_files.py:64-90 | Whatever parses as managed has a valid identity, and its tail and byte-order mark can be printed again |
| `AdrRoundTrip.WrapAgain` | src/sidegraph/adr_files.py:93-103 | Printing the same text over the region parsed from the printed file reproduces the file |
| `AdrRoundTrip.ConvertedCheckoutReads` | src/sidegraph/adr_files.py:64-90 | A file whose line endings a checkout converted, with a byte-order mark put in front, still parses to the same identity and body |
| `AdrFiles.HeaderRoundTrip` | src/sidegraph/adr_files.py:67-76 | The header line printed for an id, number and digest parses back to them |
| `AdrIdentity.EscapeLeavesNone` | src/sidegraph/adr_identity.py:36-47 | Escaped text has no reserved line |
| `AdrIdentity.EscapeIdentity` | src/sidegraph/adr_identity.py:36-47 | Escaping changes a text exactly when it has a reserved line |
| `AdrIdentity.FinalNewlineKeepsClaims` | src/sidegraph/adr_identity.py:15-33 | Adding a final newline neither makes nor hides an ownership claim |
| `AdrSettled.ExportFixpoint` | src/sidegraph/adr_files.py:138-313 | After a conflict-free plan is applied, planning again with the same records, over any listing of the directory, is conflict-free, changes nothing and leaves the directory as it is |
| `AdrPlanner.NumbersAreNew` | src/sidegraph/adr_files.py:184-209 | In a conflict-free plan owned records keep file and number; new numbers exceed every generated and human number and fit eight digits; numbers are pairwise distinct |
| `AdrPlanner.PlannedNamesDiffer` | src/sidegraph/adr_files.py:220-226 | The paths of a conflict-free plan differ even ignoring case |
| `AdrPlanner.WritesOwnFilesOnly` | src/sidegraph/adr_files.py:227-245 | No plan, with or without conflicts, writes to a human file or to a file of another record |
| `AdrPlanner.PlanExport` | src/sidegraph/adr_files.py:138-270 | The planner's loops compute the specified plan, refusing when the numbers run out |
| `AdrPlanner.ScanDirectory` | src/sidegraph/adr_files.py:151-177 | The directory loop computes the specified scan |
| `AdrPlanner.AssignNumbersTo` | src/sidegraph/adr_files.py:188-209 | The numbering loop computes the specified numbering and fails exactly when it does |
| `AdrPlanner.EmitChanges` | src/sidegraph/adr_files.py:220-263 | The change loop computes the specified changes |
| `AdrPlanner.Output.Apply` | src/sidegraph/adr_files.py:273-313 | A plan with conflicts or with a changed target writes nothing and says which target; otherwise the directory becomes exactly the planned one |
| `AdrPlanner.PlanApplies` | src/sidegraph/adr_files.py:279-295 | A conflict-free plan always applies to the directory it was made from |
| `AdrFixpoint.ScanIsExact` | src/sidegraph/adr_files.py:151-177 | The scan has no conflict exactly when every file parses and no two share a folded name, record or number; then it finds every region, owner and human number |
| `AdrFixpoint.AssignNumbers` | src/sidegraph/adr_files.py:188-209 | The numbering loop decides every record as documented, and fresh numbers are distinct |
| `AdrFixpoint.PlannedItemsOk` | src/sidegraph/adr_files.py:210-240 | The files of a conflict-free plan have distinct ids, numbers and folded names, and each fits the file it replaces |
| `DeliveryAppend.RunKeeps` | src/sidegraph/delivery.py:203-358 | After any run of appends and prunes: no orphan rows, child ids monotone in occurrence, retained counts equal to the rows, every table within its cap |
| `DeliveryAppend.StepKeeps` | src/sidegraph/delivery.py:203-358 | One append or prune keeps that invariant |
| `DeliveryAppend.AppendedSurvives` | src/sidegraph/delivery.py:245-358 | The prune inside an append never evicts the occurrence just appended: its row and all its placements and links are there |
| `DeliveryAppend.RetainExact` | src/sidegraph/delivery.py:284-309 | The retained evidence respects both per-occurrence limits, its link count is the number of links kept, and omission is flagged exactly when something was left out |
| `DeliveryAppend.PopulationsAddUp` | src/sidegraph/delivery.py:258-262 | Placed records, those removed by the hard cap and those refused add up to the considered ones |
| `DeliveryTables.PruneKeeps` | src/sidegraph/delivery.py:203-228 | Pruning removes whole occurrences only and leaves the ledger valid |
| `DeliveryTables.ThresholdFits` | src/sidegraph/delivery.py:214-228 | Deleting through the computed threshold brings all three tables within their caps |
| `DeliveryTables.OldestFirst` | src/sidegraph/delivery.py:214-228 | Capacity evicts oldest first: whatever precedes an evicted occurrence is gone |
| `DeliveryTables.EvictsOnlyWhenFull` | src/sidegraph/delivery.py:214-228 | Capacity evicts exactly when the id span of some table exceeds its cap |
| `DeliveryLedger.ChargedExactly` | src/sidegraph/delivery.py:177-197 | The eviction counters grow by exactly the rows each table loses, up to the counter maximum |
| `DeliveryLedger.ChargedThrough` | src/sidegraph/delivery.py:185-196 | The recorded eviction time is at least that of every occurrence lost, and never moves back |
| `DeliveryLedger.Ledger.DeleteThrough` | src/sidegraph/delivery.py:177-200 | The tables lose exactly the occurrences through the threshold with their children, and the counters are charged for them |
| `DeliveryLedger.Ledger.Prune` | src/sidegraph/delivery.py:203-228 | Pruning by age, then by capacity, leaves the specified valid tables and counters |
| `DeliveryLedger.Ledger.Append` | src/sidegraph/delivery.py:245-358 | An inconsistent delivery is refused and changes nothing; any other gets the next id, and tables and counters become the specified ones |
| `DeliveryLedger.Collect` | src/sidegraph/delivery.py:287-309 | The collection loop keeps exactly the specified evidence |
| `CheckoutWindow.NeverReturnsInTheWindow` | src/sidegraph/checkout_window.py:95-169 | During a checkout that has unlinked the marker and will write it before unlocking, an ordinary open goes on only with the written marker; otherwise it is refused, and only after its deadline |
| `CheckoutWindow.AwaitMarker` | src/sidegraph/checkout_window.py:95-169 | For every history and every delay of the observations the loop terminates, each outcome is justified by what was observed in the right order, and a verdict resting on HEAD is no older than the last lock seen |
| `CheckoutWindow.OpenDuringCheckout` | src/sidegraph/checkout_window.py:118-163 | The loop run against such a checkout finds the written marker or refuses for time |
| `BashTokens.QuotingRoundTrip` | src/sidegraph/bash_paths.py:200-347 | Single-quoting any list of words (POSIX Shell Command Language, section 2.2.2) and tokenizing the line gives back exactly those words |
| `BashTokens.Tokenize` | src/sidegraph/bash_paths.py:267-347 | The tokenizer loop terminates on every text with the specified tokens |
| `BashTokens.UnreadableIsUnclosed` | src/sidegraph/bash_paths.py:159-264 | A line is unreadable only because a quote or a group in it never closes |
| `BashTokens.SingleStaysOpen` | src/sidegraph/bash_paths.py:218-223 | A single quote never closes exactly when no further one follows |
| `BashTokens.Step` | src/sidegraph/bash_paths.py:282-346 | Every round of the tokenizer moves forward and stays inside the text |
| `BashTokens.WordAt` | src/sidegraph/bash_paths.py:200-264 | A word ends at the end of the text or at a separator, and a word that starts on a non-separator is not empty in extent |
| `BashTokens.ReadWord` | src/sidegraph/bash_paths.py:200-264 | The word loop reads exactly the specified word |
| `BashTokens.ScanGroup` | src/sidegraph/bash_paths.py:169-197 | The group loop stops just after the closer that balances the group, skipping quotes and escapes |
| `BashTokens.GroupEnd` | src/sidegraph/bash_paths.py:169-197 | A group ends strictly past its start, inside the text, just after a closer |
| `BashWalk.GroupIsolated` | src/sidegraph/bash_paths.py:509-517 | Any balanced parenthesised group leaves the working directory and the stack of saved ones as they were |
| `BashWalk.SavedBelow` | src/sidegraph/bash_paths.py:509-517 | Directories saved before a stretch of commands stay untouched below those it saves |
| `BashWalk.WalkExtends` | src/sidegraph/bash_paths.py:493-536 | A walk, nested scripts included, only appends files, each at most once |
| `BashWalk.CommandWordsSuffix` | src/sidegraph/bash_paths.py:459-482 | What runs is a suffix of what was written, and stripping prefixes again changes nothing |
| `BashWalk.AfterDashes` | src/sidegraph/bash_paths.py:378-381 | After `--` every argument is an operand |
| `BashWalk.FilesAfterDashes` | src/sidegraph/bash_paths.py:369-409 | `grep PATTERN -- FILES` names exactly the files, whatever they are called |
| `BashWalk.AttachedKeepsNext` | src/sidegraph/bash_paths.py:382-389 | A long option with an attached value, even an empty one, leaves the next argument alone |
| `BashWalk.Walk.Line` | src/sidegraph/bash_paths.py:493-536 | The loops over tokens and commands find the specified files, and an unreadable line finds none |
| `BashWalk.ReadPaths` | src/sidegraph/bash_paths.py:539-554 | No file is reported twice, and an unreadable line gives none |
| `InputLimits.MeasureItem` | src/sidegraph/input_limits.py:58-138 | The walk with its early width and depth cuts admits an item exactly when its whole tree fits 4096 nodes, depth 32 and bounded strings, and then returns exact totals |
| `InputLimits.Meter.Visit` | src/sidegraph/input_limits.py:72-135 | One visit with running totals and the active set agrees with the measure of the subtree and leaves the active set as it was |
| `InputLimits.CyclicRefused` | src/sidegraph/input_limits.py:114-117 | An item that contains itself is refused, wherever the cycle is |
| `InputLimits.CycleUnmeasured` | src/sidegraph/input_limits.py:72-75 | What leads back to itself is measured at no depth |
| `InputLimits.PreflightDrafts` | src/sidegraph/input_limits.py:160-202 | The request is refused exactly when the draft count, a metadata item or the sum of the admitted items breaks a limit; otherwise each draft is flagged exactly when it is inadmissible on its own |
| `InputLimits.OrderIndependent` | src/sidegraph/input_limits.py:160-202 | Reordering drafts or metadata never changes whether the request is refused |
| `InputLimits.ManyItems` | src/sidegraph/input_limits.py:188-189 | Admitted items are at least one node each, so the early cut on the number of metadata items refuses nothing the budget would admit |
| `DomainSplits.Heads` | src/sidegraph/domain_splits.py:33-51 | The search terminates on every supersession graph, cycles included, and returns exactly the accepted domains reachable through superseded ones |
| `DomainSplits.DomainParts` | src/sidegraph/domain_splits.py:20-57 | A predecessor is listed exactly when it has a live part, with all its live parts sorted and distinct |
| `DomainSplits.SplitAddedBy` | src/sidegraph/domain_splits.py:65-76 | The reported predecessors are exactly those whose split the accept created or grew, sorted |
| `DomainSplits.PartsAfter` | src/sidegraph/domain_splits.py:20-57 | Accepting a successor over an accepted domain changes the parts of every predecessor in exactly one way: the closed head is replaced by the new one and the parts it already had |
| `DomainSplits.RevisionKeepsCounts` | src/sidegraph/domain_splits.py:65-76 | A plain revision keeps the part count of every other domain and adds no split |
| `DomainSplits.SplitAddedExactly` | src/sidegraph/domain_splits.py:65-76 | Off a cycle, the accept adds a split exactly when its predecessor already had a live part |
| `TreeLayers.Layers` | src/sidegraph/drift_checks.py:575-587 | First fit puts every path in the layer numbered by how many requested ancestors it has; no layer is empty |
| `TreeLayers.LayerFlat` | src/sidegraph/drift_checks.py:575-587 | No layer holds a directory and something inside it |
| `TreeLayers.FewestLayers` | src/sidegraph/drift_checks.py:575-587 | No other division of the paths into groups without nested paths has fewer groups |
| `TreeLayers.Chunks` | src/sidegraph/drift_checks.py:558-572 | Joined, the chunks are the sorted paths; each fits the argument budget or holds one path; none had room for the next path |
| `TreeLayers.TreeEntriesAll` | src/sidegraph/drift_checks.py:590-625 | The lookup returns exactly the requested entries of every kind, except a directory below the top level whose own path exceeds the argument budget |
| `TreeLayers.LongDirectoryNotFindable` | src/sidegraph/drift_checks.py:514-527 | A concrete miss: a nested directory whose argument is one over the budget |
| `TreeLayers.LongDirectoryMissed` | src/sidegraph/drift_checks.py:590-625 | The lookup asked for that one directory returns nothing |
| `TreeLayers.RecursivePass` | src/sidegraph/drift_checks.py:611-616 | The recursive calls find exactly the requested entries that are not directories |
| `TreeLayers.OncePass` | src/sidegraph/drift_checks.py:619-624 | The non-recursive calls over one layer find exactly its entries, oversized paths below the top level excepted |

## Left out

- Drift checks: JSON decoding and encoding are a lawful `Format`; sorted lists of distinct paths and keys are sets, the image keeps its order; `decision_states` and the effective records are inputs of the planner.
- Drift checks: the publisher's re-reading of each file before it unlinks it, its lock and its HEAD test appear as stopping for good; folds follow one another, and no check is added between them.
- Drift checks: check files that cannot be read at all are skipped by the source and are not in the model's store.
- Domain membership: the snapshot's timestamps, versions and JSON text, and applying recorded sets to live domains.
- DomainBuilder.RecordedSets: grouping by file is expressed by filtering the node list per file, so the order of dictionary keys is not captured.
- DocRuns.RatifyNeverRefused: speaks of the decision checks only, because facts are not part of the store model and their own supersession can refuse a ratification.
- Document import: auto-ratify policies and their report fields, `ratify_matching_proposal`, fact cascades and `retire`; a document write is the manual policy's.
- DocPreview.DryRunExact: conditions on the store alone are stated for documents with anchors of their own at one reference; `DocDryRun.DryRunExactly` and `DocRetraction.PreviewsRemembered` cover the rest.
- Document import: Markdown parsing above the split (frontmatter, structure, bold blocks, status words), redaction and truncation of body text.
- ADR files: text is decoded characters, so invalid UTF-8 is not modelled, and case folding is ASCII.
- ADR export: rendering, diffs, warnings and the retained list; entries that are not Markdown; symbolic links, atomic replacement and races while a plan is being applied.
- Delivery ledger: times are integers; SQLite's row-id overflow at 2^63-1; session, agent and host ids, surface, reason and runtime version; cleaning of damaged metadata.
- CheckoutWindow.AwaitMarker: time is an integer clock and the poll interval is positive; one lock path; the wording of refusals.
- Shell lines: resolving an argument to a file is an oracle; white space and digits are ASCII.
- Input limits: the type test of the two arguments and `preflight_direct`; sizes of strings are given, with invalid UTF-8 as a refused leaf.
- Tree lookup: deadlines, timeouts and object-id validation; Git is a map from paths to entries.
- Argument parsing, printing, host hooks, the doctor report, anchoring and configuration: they hold no state of their own and decide nothing the modelled parts depend on.
- Listing the domains with two or more parts: a filter on the size of each list `DomainSplits.DomainParts` returns.
