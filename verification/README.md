# Verified models of the bodesign platform

This project models seven parts of the platform whose correctness rests on more than one branch, and proves what they are
there for. Each file is one module.

| files | models |
|---|---|
| `Basics.dfy` | what several modules share: `Option`, `str.strip`, ASCII lower case |
| `Ordering.dfy` | Python's stable `sorted`, on which the feature graph and the manifest rely |
| `FeatureGraph.dfy` | the compile step of a feature graph: a topological order by Kahn's algorithm with a sorted queue |
| `Manifest.dfy` | the artifact manifest: canonical payload, digest, dictionary round trip |
| `RigidFrame.dfy` | the acceptance of a 4x4 rigid frame within a tolerance |
| `NetBlocks.dfy`, `NetPartition.dfy`, `FidelityGate.dfy`, `FidelityLaws.dfy` | the netlist fidelity gate: block scanner, union-find, verdict, and what the verdict means |
| `Outbox.dfy`, `OutboxRecords.dfy`, `OutboxAdapter.dfy` | the fleet outbox: protocol with crashes, dead-letter records, the sidecar and operator code |
| `CacheTree.dfy`, `CacheStore.dfy`, `CacheLaws.dfy`, `TokenStore.dfy` | the deliverable cache: file tree, store over whole runs, what every run guarantees, the store as code |
| `LockTable.dfy` | WebDAV write locks (section 6.2 of RFC 4918) |
| `KbSearch.dfy` | query planning for the knowledge base, with readers for LIKE patterns and MATCH expressions |
| `TextOverlap.dfy` | the SVG text overlap gate and its bucket grid |
| `Chunker.dfy` | paragraph chunking with offset anchors |
| `VaultImport.dfy`, `VaultImportLaws.dfy`, `VaultImportEntries.dfy` | the client cache import into the component vault: the code, its laws, and the import told from its manifest |

How the models are built:

- Floats are reals; files and table rows are maps and sequences; a database transaction is one step. Time is an argument.
- SHA-256, the canonical key of a part number, the white-space test of `str.strip` and the full-text lookup of one phrase are
  function parameters. Fresh tokens and lock tokens are arguments.
- The outbox is a state machine with one step for each durable write, each POST and each crash, and three actors. The
  receiver is arbitrary: it may process an event and refuse it, or accept it and never process it. Only the theorem that a
  delivered draft took effect asks for a receiver that processes what it accepts (`Outbox.HonestRun`).
- The cache store may do several operations at one instant; time only never runs backwards. An archive that is staged may
  set the date of its token's directory to anything.
- Code that updates state is a class or a method with loops, proved against functions; runs are spoken of with those functions.

## What the proofs found

- A net with one entry never reaches the union-find (`fidelity_cc.py:95-104`), although the module comment says such nets are
  kept and compared (lines 21-23). A pin that is new and alone in its net passes the gate unseen
  (`FidelityLaws.StraySlipsThrough`). On a consistent baseline the two verdicts differ exactly when the gate passes and some
  net with one entry holds a real pin the baseline lacks (`FidelityLaws.StraysAreTheDifference`).
- With overlapping baseline nets the verdict can be wrong both ways: the gate passes sheets that leave apart what the
  baseline joins (`FidelityLaws.OverlapPassesWrongly`) and fails sheets that are the baseline
  (`FidelityLaws.OverlapFailsWrongly`). What decides is whether the index gives each pin of each net at least that whole net
  (`Consistent`), which disjoint nets and nets listed twice do. On such a baseline PASS means the same net list, for all
  sheets. On any other, some sheets pass wrongly if and only if the index settles into blocks, and some fail wrongly if and
  only if standing in one net is transitive (`FidelityLaws.WrongPassIff`, `WrongFailIff`, `RightOnAllSheetsIff`).
- A sheet whose export fails is skipped and the verdict is about the remaining sheets.
- A requeue started while its draft is in flight can lose the draft's only record, when the sidecar moves the restored file
  back before the operator removes the dead one. A requeue is safe exactly when the draft is not in flight when it starts
  (`OutboxRecords.RequeueIsSafeUnlessInFlight`).
- A dead draft cannot always be requeued again. An uninterrupted requeue strands it if and only if no database is given,
  about which the script only warns (`OutboxRecords.RequeueStrandsIffNoDatabase`). Over careful runs the one step that
  strands a draft is a requeue of it that stops between the unlink and the UPDATE (`OutboxRecords.OnlyAbandoningStrands`);
  without one no draft is ever stranded (`NothingIsStranded`), and a stranded draft is never sent again (`StrandedForever`).
- The dirty gate of a cache compares times. A PUT followed by a close discards bytes that were never exported exactly when
  the PUT falls on the instant of the last export and its bytes were not in it (`CacheLaws.PutDefeatsTheGateIff`). Without
  such a PUT the gate is sound in every run, several operations at one instant included
  (`CacheLaws.CloseIsSafeWhenPutsAreApart`).
- A tarball with an entry for its own root dates its token's directory (`token_store.py:213`), and the sweep of ephemeral
  tokens looks at that date alone (line 123). A token staged a second ago can be swept by the next `new_token`
  (`CacheLaws.FreshlyStagedIsSwept`); a staged token that was not resolved since is swept early exactly when its date lies
  more than a lifetime back (`CacheLaws.StagedTokenIsSweptByItsDate`).
- MOVE and COPY clear the destination before they act (`token_store.py:347-393`), and nothing keeps a request from naming one
  place twice. A refused MOVE leaves its source alone unless overwriting is allowed and the source is, or lies in, a
  destination that is there; then the source is lost (`CacheTree.RefusalLosesSourceIff`). A file moved onto itself is gone
  (`CacheTree.MovedOntoItself`).
- A manifest's digest does depend on the order of dependencies with one kind and name (`Manifest.SwappedTwinsShow`).
- The vault import looks for duplicates under the path as written and stores the path without trailing white space, so a key
  with white space behind it is written again by every import, and its conflicts are not reported. Importing again adds
  nothing exactly when there is no such key (`VaultImportLaws.SecondImportAddsNothingIffTidy`).
- The content of a chunk is stripped while its anchor is not moved, so the content starts at its anchor only when the group
  does not open with white space (`Chunker.ContentStartsAtAnchorUnlessIndented`).
- Short tokens of a query are required in either mode: `any` makes only the long ones alternatives (`KbSearch.QuerySelects`).
- A lock on a folder says nothing about what lies in it, whatever depth was asked for (`LockTable.OtherKeysAreUntouched`).

## Model

| member | source | states |
|---|---|---|
| FeatureGraph.Compile | packages/design-ir/bodesign_design_ir/rebuild_contracts.py:562-625 | an order is recorded exactly when the graph is well formed and has no cycle; every node has its place behind all it depends on; the order is lexicographically least among all topological orders; a cycle error lists, sorted, exactly the ids that depend on a cycle; other errors name the first fault |
| FeatureGraph.GreedyIsLeast | packages/design-ir/bodesign_design_ir/rebuild_contracts.py:602-613 | taking the least ready id each time gives an order no other topological order comes before |
| FeatureGraph.OrderedIsAcyclic | packages/design-ir/bodesign_design_ir/rebuild_contracts.py:602-618 | nothing in a dependency-first prefix is on or above a cycle |
| FeatureGraph.LeftoversAreTheCycles | packages/design-ir/bodesign_design_ir/rebuild_contracts.py:614-618 | when the queue runs dry early, what is unresolved is exactly what depends on a cycle |
| FeatureGraph.OrderDependsOnlyOnRelation | packages/design-ir/bodesign_design_ir/rebuild_contracts.py:587-625 | two node lists with one dependency relation record one order |
| FeatureGraph.RearrangingKeepsRelation | packages/design-ir/bodesign_design_ir/rebuild_contracts.py:587-600 | reordering nodes, reordering dependencies or repeating them leaves the relation as it was |
| FeatureGraph.RelationSays | packages/design-ir/bodesign_design_ir/rebuild_contracts.py:587-600 | the relation has the ids of the nodes, each with exactly what its node depends on, itself included |
| Ordering.LessIffParts | packages/design-ir/bodesign_design_ir/rebuild_contracts.py:602-612 | ids are compared code point by code point: a proper prefix first, else the smaller character where they first differ |
| FeatureGraph.Kahn | packages/design-ir/bodesign_design_ir/rebuild_contracts.py:598-613 | the loop ends with a greedy prefix and with the degrees of what is left |
| Manifest.ConstructDecides | packages/design-ir/bodesign_design_ir/rebuild_contracts.py:131-162 | construction succeeds exactly for schema 1, a revision, at least one artifact, paths distinct up to slashes and a matching digest, and keeps what it was given; otherwise the first complaint in that order |
| Manifest.SamePayloadIff | packages/design-ir/bodesign_design_ir/rebuild_contracts.py:181-202 | two manifests have one canonical payload if and only if schema and revision agree, their artifacts correspond one to one with equal role and size, path up to slashes and digest up to case, and within each (kind, name) they list dependencies alike |
| Manifest.SameDigestMeansSame | packages/design-ir/bodesign_design_ir/rebuild_contracts.py:159-202 | without a hash collision, manifests of one digest list the same artifacts, one to one, and the same dependencies up to order |
| Manifest.PayloadIsSorted | packages/design-ir/bodesign_design_ir/rebuild_contracts.py:181-202 | artifacts are hashed by strictly ascending path, dependencies by ascending kind and name |
| Manifest.DigestForgetsOrder | packages/design-ir/bodesign_design_ir/rebuild_contracts.py:181-202 | the digest is unchanged by any permutation of artifacts and of dependencies with distinct (kind, name) |
| Manifest.SwappedTwinsShow | packages/design-ir/bodesign_design_ir/rebuild_contracts.py:181-196 | swapping two different dependencies with one kind and name changes the payload |
| Manifest.RoundTrip | packages/design-ir/bodesign_design_ir/rebuild_contracts.py:204-219 | reading back a written manifest always succeeds: its artifacts correspond one to one to those written, its dependencies are a permutation, and schema, revision, payload and digest are the same |
| Manifest.DictIsStable | packages/design-ir/bodesign_design_ir/rebuild_contracts.py:47-75 | the dictionary form of a checked reference passes its checks and is its own dictionary form |
| Manifest.FromDictDecides | packages/design-ir/bodesign_design_ir/rebuild_contracts.py:204-219 | reading refuses a bad artifact first and a bad dependency second, and else keeps every field but the case of digests |
| Manifest.ScopedIff | packages/design-ir/bodesign_design_ir/rebuild_contracts.py:24-34 | a path is scoped exactly when no stretch between slashes of either lean is empty, a dot or two dots |
| Manifest.ReferencesAreChecked | packages/design-ir/bodesign_design_ir/rebuild_contracts.py:41-96 | what the checks of an artifact and of a dependency let through |
| RigidFrame.LengthsNearlyKept | packages/design-ir/bodesign_design_ir/rebuild_contracts.py:355-365 | once the loop has passed, no squared length changes by more than 3*eps of itself |
| RigidFrame.DetSquaredNearOne | packages/design-ir/bodesign_design_ir/rebuild_contracts.py:355-372 | once the loop has passed, det squared is within 3*eps + 6*eps^2 + 6*eps^3 of 1 |
| RigidFrame.DeterminantNearUnit | packages/design-ir/bodesign_design_ir/rebuild_contracts.py:367-377 | at the default tolerance the absolute determinant of a matrix that passes the loop is within 2*eps of 1 |
| RigidFrame.ScaledIsReachable | packages/design-ir/bodesign_design_ir/rebuild_contracts.py:373-377 | a matrix that passes the loop can still reach the last branch |
| RigidFrame.ExactFrames | packages/design-ir/bodesign_design_ir/rebuild_contracts.py:355-377 | an exact orthonormal frame is accepted when right-handed and called a reflection otherwise, never scaled |
| RigidFrame.AcceptedMeansRigid | packages/design-ir/bodesign_design_ir/rebuild_contracts.py:340-377 | what an accepted matrix guarantees about lengths and the determinant |
| RigidFrame.ValidateDecides | packages/design-ir/bodesign_design_ir/rebuild_contracts.py:340-377 | on the entries: accepted exactly when the matrix is 4x4, finite, its bottom row 0, 0, 0, 1, its columns orthonormal and its determinant 1, each within eps; otherwise which complaint comes first |
| RigidFrame.FirstComplaint | packages/design-ir/bodesign_design_ir/rebuild_contracts.py:345-348 | the entry complained of is the first, in reading order, that is not finite |
| NetBlocks.Split | issues/assets_20260706_c03_session/fidelity_cc.py:37-57 | on any input it ends and returns the slices at the spans of the blocks, which tile the text |
| NetBlocks.SpansTile | issues/assets_20260706_c03_session/fidelity_cc.py:37-57 | the spans are disjoint and in order, no opener starts outside them, and each is a balanced net, or one that never closes and runs to the end of the text |
| NetBlocks.OpenerIs | issues/assets_20260706_c03_session/fidelity_cc.py:37-42 | a block starts where the text reads `(net ` with its blank |
| NetBlocks.SplitUndoesWeave | issues/assets_20260706_c03_session/fidelity_cc.py:37-57 | balanced nets in any opener-free surroundings come back exactly, in order |
| NetPartition.UnionFind.Find | issues/assets_20260706_c03_session/fidelity_cc.py:81-86 | path halving returns the root and keeps the forest and every root as they were |
| NetPartition.UnionFind.Union | issues/assets_20260706_c03_session/fidelity_cc.py:88-91 | joining keeps the forest and makes one class of two |
| NetPartition.RankedIsForest | issues/assets_20260706_c03_session/fidelity_cc.py:81-91 | every way up the parent map ends in a root and only a root is its own ancestor |
| NetPartition.JoinPartitions | issues/assets_20260706_c03_session/fidelity_cc.py:88-91 | after a join the roots tell apart exactly what some colouring that respects every joined pair tells apart |
| NetPartition.RootsTellConnection | issues/assets_20260706_c03_session/fidelity_cc.py:93-109 | two pins have one root exactly when a chain of shared nets connects them: the finest such partition |
| NetPartition.ConnectionIgnoresOrder | issues/assets_20260706_c03_session/fidelity_cc.py:93-109 | the same nets in any order, each with its pins in any order, connect the same pins |
| FidelityGate.Gate | issues/assets_20260706_c03_session/fidelity_cc.py:133-201 | for every baseline and every list of sheets: no sheets is its own verdict, and PASS exactly when the baseline index agrees with the classes of connected pins of all exported sheets |
| FidelityGate.Compare | issues/assets_20260706_c03_session/fidelity_cc.py:147-196 | the three lists of the comparison are empty exactly when the two indexes agree |
| FidelityGate.CollectClasses | issues/assets_20260706_c03_session/fidelity_cc.py:105-109 | the classes read off the forest are those of the root map, each once |
| FidelityLaws.NetsAreOfSheets | issues/assets_20260706_c03_session/fidelity_cc.py:93-104 | what is merged are exactly the nets of the exports that did not fail |
| FidelityLaws.PassMeansSame | issues/assets_20260706_c03_session/fidelity_cc.py:147-196 | on a consistent baseline PASS exactly when no candidate pin is new and any two baseline pins share a net in the baseline if and only if the sheets connect them |
| FidelityLaws.ConsistentTellsCompany | issues/assets_20260706_c03_session/fidelity_cc.py:207-212 | a baseline is consistent exactly when the index gives each real pin just the pins it stands with in some net |
| FidelityLaws.DisjointIsConsistent | issues/assets_20260706_c03_session/fidelity_cc.py:207-212 | baseline nets that share no pin are consistent |
| FidelityLaws.ListedTwiceIsConsistent | issues/assets_20260706_c03_session/fidelity_cc.py:207-212 | sharing no pin is more than is needed: a net listed twice is consistent |
| FidelityLaws.WrongFailIff | issues/assets_20260706_c03_session/fidelity_cc.py:147-212 | some sheets that are the baseline fail, exactly when standing in one baseline net is transitive but the baseline is not consistent |
| FidelityLaws.WrongPassIff | issues/assets_20260706_c03_session/fidelity_cc.py:147-212 | some sheets that are not the baseline pass, exactly when the index settles into blocks but the baseline is not consistent |
| FidelityLaws.RightOnAllSheetsIff | issues/assets_20260706_c03_session/fidelity_cc.py:147-212 | the verdict is right about all sheets exactly when the baseline is consistent, or neither transitive nor settled |
| FidelityLaws.OverlapPassesWrongly | issues/assets_20260706_c03_session/fidelity_cc.py:207-212 | the baseline {a,b}, {a}, {b} passes without any net on the sheets |
| FidelityLaws.OverlapFailsWrongly | issues/assets_20260706_c03_session/fidelity_cc.py:207-212 | a net listed again in part makes the gate fail sheets that are the baseline |
| FidelityLaws.StraysAreTheDifference | issues/assets_20260706_c03_session/fidelity_cc.py:93-109 | on a consistent baseline the verdict differs from one that keeps nets with one entry exactly when the gate passes and such a net holds a real pin the baseline lacks |
| FidelityLaws.StraySlipsThrough | issues/assets_20260706_c03_session/fidelity_cc.py:93-104 | the nets {a,b} and {z} pass against {a,b}, and would fail if nets with one entry were kept |
| FidelityLaws.VerdictIgnoresOrder | issues/assets_20260706_c03_session/fidelity_cc.py:93-196 | the verdict is the same for the same sheets, nets and pins in any order |
| FidelityLaws.PermutedSheetsAreTheSame | issues/assets_20260706_c03_session/fidelity_cc.py:93-109 | any permutation of the sheets is such a reordering |
| FidelityLaws.PermutedNetsAreTheSame | issues/assets_20260706_c03_session/fidelity_cc.py:93-104 | so is any permutation of nets |
| Outbox.EveryPostIsADraft | deploy/fleet-outbox-adapter.py:224-283 | in every run with crashes and any receiver, each POST carries the body and event id of a submitted draft; a receiver that deduplicates by event id acts at most once on each event and draft |
| Outbox.DeliveredOnlyAfterAcceptance | deploy/fleet-outbox-adapter.py:217-289 | in every run, whatever the receiver does, a delivered row follows a POST of its event that came back accepted, carries the receipt of that reply, no error, and between one and five attempts |
| Outbox.DeadOnlyAfterFailure | deploy/fleet-outbox-adapter.py:244-283 | in every run a dead row follows a POST of its event that came back not accepted, carries that reply as its error, and no receipt |
| Outbox.DeliveredTookEffectOnce | deploy/fleet-outbox-adapter.py:224-289 | if the receiver processes what it accepts, a delivered draft took effect exactly once, with its own body |
| Outbox.RunKeepsRows | deploy/fleet-outbox-adapter.py:194-289 | in every run no row is lost, its frozen columns never change, and a delivered row stays exactly as it is |
| Outbox.RunKeepsInv | deploy/fleet-outbox-adapter.py:194-289 | the invariant that ties table, files, receiver, sidecar and operator together holds after every step |
| Outbox.NextClaimReturnsEveryDraft | deploy/fleet-outbox-adapter.py:194-210 | wherever a crash leaves the system, the next claim can run and returns every pending and in-flight draft |
| Outbox.FilesTellTheStory | deploy/fleet-outbox-adapter.py:224-283 | what every step leaves in the live and dead-letter files of its event |
| OutboxRecords.CarefulRunLosesNothing | scripts/fleet-outbox-reconcile.py:89-115 | as long as no requeue starts on a draft in flight, every dead draft has its record in every run, crashes included |
| OutboxRecords.RequeueIsSafeUnlessInFlight | scripts/fleet-outbox-reconcile.py:89-115 | a requeue can lose no record, whatever follows, if and only if the draft is not in flight when it starts |
| OutboxRecords.DeadDraftCanBeRequeuedUnlessStranded | scripts/fleet-outbox-reconcile.py:89-93 | a dead draft can be requeued exactly when it is not stranded |
| OutboxRecords.RequeueStrandsIffNoDatabase | scripts/fleet-outbox-reconcile.py:89-115 | an uninterrupted requeue of a dead draft leaves it without a dead-letter file, and so not to be requeued, if and only if no database is given |
| OutboxRecords.StoppedRequeueStrands | scripts/fleet-outbox-reconcile.py:101-113 | a requeue that stops after the unlink leaves a dead row without a dead-letter file |
| OutboxRecords.OnlyAbandoningStrands | scripts/fleet-outbox-reconcile.py:101-113 | from any state that careful runs reach, a step strands a draft exactly when it is a requeue of that dead draft stopping after the unlink and before the UPDATE |
| OutboxRecords.NothingIsStranded | scripts/fleet-outbox-reconcile.py:89-115 | in a careful run in which no requeue stops there, no draft is ever stranded |
| OutboxRecords.StrandedForever | scripts/fleet-outbox-reconcile.py:89-115 | such a draft stays that way and is never posted again, in any run |
| OutboxAdapter.Adapter.Claim | deploy/fleet-outbox-adapter.py:194-210 | one protocol step: everything pending is in flight, and the queue holds every draft in flight by creation time |
| OutboxAdapter.Adapter.Push | deploy/fleet-outbox-adapter.py:224-283 | between one and five POSTs, each with the bytes and ids of the draft; then a delivered row has the receipt of the deciding reply, no error and the number of tries, a dead row the last reply as its error, no receipt and the replies noted before plus the tries, and its dead letter all these replies in order; every other row and dead letter is as it was |
| OutboxAdapter.TriesStopAtFirst | deploy/fleet-outbox-adapter.py:244-277 | the last try is the first accepted or refused one, or the fifth |
| OutboxAdapter.WhatDecides | deploy/fleet-outbox-adapter.py:263-277 | which codes accept, which refuse, and that no other, no network fault and no server error decides |
| OutboxAdapter.Adapter.Drain | deploy/fleet-outbox-adapter.py:285-289 | an uninterrupted drain settles every claimed draft by its own verdict, counts them and touches no other row |
| OutboxAdapter.DrainSettlesEveryDraft | deploy/fleet-outbox-adapter.py:285-289 | after a drain every open draft is settled by the last of its own replies, with its receipt or its error and the count of its tries, and rows settled before are as they were |
| OutboxAdapter.Adapter.RequeueOne | scripts/fleet-outbox-reconcile.py:89-115 | an uninterrupted requeue restores the record with its attempts and one more requeue, and with a database makes exactly the dead row of that event pending without an error |
| OutboxAdapter.Adapter.Submit | services/mcp/feedback_drafts.py:173-184 | the insert adds one pending row and touches nothing else |
| CacheTree.MoveCarriesFiles | services/mcp/token_store.py:362-375 | whatever its outcome, MOVE makes up no file: bytes and modification times travel together |
| CacheTree.MoveArrives | services/mcp/token_store.py:362-375 | after a MOVE everything at or below the source lies at or below the destination and nowhere else, only what lay at the destination is discarded, and nothing is there besides but folders on the way |
| CacheTree.CopyCarriesFiles | services/mcp/token_store.py:377-393 | the same for COPY |
| CacheTree.CopyArrives | services/mcp/token_store.py:377-393 | after a COPY everything at or below the source lies at or below the destination as well, only what lay at the destination is discarded, and nothing is there besides but folders on the way |
| CacheTree.MoveBack | services/mcp/token_store.py:362-375 | moved to a free place and back, a tree is as it was but for the folders made on the way |
| CacheTree.MoveIsWellFormed | services/mcp/token_store.py:347-375 | MOVE keeps every file below folders |
| CacheTree.PutIs | services/mcp/server.py:3177-3203 | when PUT goes through; it writes one file with its bytes and time, makes folders on the way, and changes nothing else |
| CacheTree.DeleteIs | services/mcp/server.py:3205-3224 | DELETE takes exactly what lies at or below the path |
| CacheTree.MkcolIs | services/mcp/token_store.py:334-345 | when MKCOL goes through; it makes one folder and changes nothing else but the way to it |
| CacheTree.MoveOutcome | services/mcp/token_store.py:347-375 | the answer of every MOVE, in order of the checks, and what a refusal leaves behind |
| CacheTree.CopyOutcome | services/mcp/token_store.py:347-393 | the answer of every COPY whose destination is not inside its source |
| CacheTree.RefusalLosesSourceIff | services/mcp/token_store.py:347-375 | a refused MOVE loses its source if and only if overwriting is allowed and the source is, or lies in, a destination that is there |
| CacheTree.MovedOntoItself | services/mcp/token_store.py:347-375 | a file moved onto itself is gone |
| CacheLaws.CloseDiscardsOnlyExportedBytes | services/mcp/server.py:1009-1069 | after any run, an unforced close that succeeds discards only bytes the last export wrote out, unless that cache was written to at the very instant of that export |
| CacheLaws.CloseIsSafeWhenPutsAreApart | services/mcp/server.py:1009-1069 | the same for every cache, in every run in which no PUT falls on the instant of the last export of its cache |
| CacheLaws.CloseIsSafeWhenTimeMovesOn | services/mcp/server.py:1009-1069 | the same in every run whose clock moves between operations |
| CacheLaws.ExportThenClose | services/mcp/server.py:1009-1069 | right after an export the gate opens |
| CacheLaws.PutDefeatsTheGateIff | services/mcp/token_store.py:294-321 | from any sound state and for any tree: a PUT and then an unforced close discard bytes never exported if and only if the PUT falls on the instant of the last export and its bytes were not in it |
| CacheLaws.ReapTakesExactlyTheUnused | services/mcp/token_store.py:105-170 | a sweep removes a token whose directory no archive dated, or that was resolved since, exactly when it was unused for the whole lifetime of its own class |
| CacheLaws.ReapTakesTheDated | services/mcp/token_store.py:111-130 | a sweep removes a token dated by an archive exactly when that date lies more than a lifetime back |
| CacheLaws.StagedTokenIsSweptByItsDate | services/mcp/token_store.py:111-214 | over every run that does not address it, a token staged with a date is swept by that date; early, if and only if the date lies more than a lifetime back |
| CacheLaws.FreshlyStagedIsSwept | services/mcp/token_store.py:111-214 | a token staged one second ago from an old archive is gone after the next sweep |
| CacheLaws.TokensStayUnlessClosedOrSwept | services/mcp/token_store.py:105-187 | no operation removes a token but its own close and a sweep that takes it |
| CacheLaws.ProvisionGivesLive | services/mcp/token_store.py:264-292 | from every sound state a provisioning gives a live cache of that owner and subject, used now: the one there was, otherwise unchanged, or a new one, empty and never exported, only if there was none |
| CacheLaws.ProvisionIsIdempotent | services/mcp/token_store.py:264-292 | in every run: once an owner and subject were given a cache, asking again gives the same one, unless a close or a sweep took it in between |
| CacheStore.RunKeepsOk | services/mcp/token_store.py:105-393 | the invariant on clocks, caches and exported bytes holds after every run |
| TokenStore.Store.Reap | services/mcp/token_store.py:105-170 | the two sweeping loops take exactly the tokens whose class and dates say so, leave the others as they were, drop sidecars without a directory, and count what they took |
| TokenStore.Store.StageFiles | services/mcp/token_store.py:200-234 | a sweep, then a new token with exactly these files and no sidecar; the directory is dated by the archive or by the clock |
| TokenStore.Store.Provision | services/mcp/token_store.py:264-292 | errors first; then the sidecar of the token given names owner and subject and is used now; an old cache is otherwise as it was, a new one is empty, never exported, and given only if no live cache was there |
| TokenStore.Store.ListDirty | services/mcp/token_store.py:294-306 | the files younger than the last export, or all of them before the first |
| TokenStore.Store.Export | services/mcp/server.py:1009-1045 | when it goes through: the target has exactly the files of the tree, counted, and only the sidecar is stamped; else which error, and no sidecar changes |
| TokenStore.Store.Close | services/mcp/server.py:1048-1069 | not found, dirty and not forced, or gone with directory and sidecar: exactly when each |
| TokenStore.Store.TouchCache | services/mcp/token_store.py:323-328 | the directory and the sidecar are touched, nothing else |
| TokenStore.Store.Change | services/mcp/server.py:3177-3283 | PUT, DELETE, MKCOL, MOVE and COPY do to the tree of their cache what they are asked, touch its directory and no other, and only a PUT that went through moves the time of last use |
| TokenStore.ReapInTwo | services/mcp/token_store.py:105-170 | the two passes take disjoint classes, so the order does not matter |
| LockTable.LockIsExclusive | services/mcp/_webdav.py:271-319 | from a successful acquire, for as long as the lease as last renewed lasts and its token is not presented: every other owner's acquire fails, `check` blocks all but the holder, and the holder keeps its token |
| LockTable.HolderKeepsLock | services/mcp/_webdav.py:271-330 | over whole runs the lock, its owner and token stay, and its expiry is that of the last renewal |
| LockTable.AcquireFailsOnlyOnLiveLock | services/mcp/_webdav.py:271-330 | an acquire fails exactly on a live lock of another owner, which is when `check` blocks; a released lock is in nobody's way |
| LockTable.AcquireHolds | services/mcp/_webdav.py:271-300 | who acquires is filed as the holder until now plus the time to live, with a new token unless its own lock was live |
| LockTable.CheckNamesTheLiveLock | services/mcp/_webdav.py:302-319 | `check` names exactly another owner's live lock and drops only one that ran out |
| LockTable.ReleaseNeedsTheToken | services/mcp/_webdav.py:321-330 | a release takes the lock whose token is presented and no other |
| LockTable.KeysAreDistinct | services/mcp/_webdav.py:267-269 | two resources share a key only if they are the same path in the same cache |
| LockTable.OtherKeysAreUntouched | services/mcp/_webdav.py:271-330 | operations on other keys leave a lock alone, so depth has no effect |
| LockTable.Registry.Acquire | services/mcp/_webdav.py:271-300 | refused exactly on another owner's live lock, and then nothing changes; else the lock filed and returned is the live one refreshed in place, or a new one with the token and depth asked for |
| KbSearch.LikeFindsToken | services/mcp/server.py:1219-1221 | the pattern of a token matches a text under LIKE with escape exactly when the token occurs in it |
| KbSearch.PlanReadsBack | services/mcp/server.py:1189-1216 | the MATCH expression reads back as exactly the long tokens, embedded quotes included, joined by the operator the mode names |
| KbSearch.QuerySelects | services/mcp/server.py:1259-1278 | which rows a query selects: long tokens all or any, short tokens always required |
| KbSearch.WordsReadBack | services/mcp/server.py:1204 | splitting finds the words written with blanks between them |
| KbSearch.WordsSplitAtSpace | services/mcp/server.py:1204 | any white space separates: what is on either side is split on its own |
| KbSearch.WordsOfOne | services/mcp/server.py:1204 | a stretch without white space is one word |
| KbSearch.LongTokensInOrder | services/mcp/server.py:1205-1206 | the long tokens keep their order |
| KbSearch.ShortTokensInOrder | services/mcp/server.py:1205-1206 | and so do the short ones |
| KbSearch.OneToken | services/mcp/server.py:1205-1206 | three characters make a token long |
| KbSearch.ModeTells | services/mcp/server.py:1189-1216 | the mode of a plan says which kinds of token there are and how the long ones are joined; its LIKE tokens are the short ones |
| KbSearch.ExpressionIs | services/mcp/server.py:1207-1208 | the expression, character by character, of one and of two tokens |
| KbSearch.TokensAreSorted | services/mcp/server.py:1205-1206 | every token is looked up in one way and one only |
| TextOverlap.Check | issues/assets_20260706_c03_session/qa_svg_text.py:77-106 | the grid reports exactly the pairs of boxes that violate the gate, each once, and passes exactly when there is none |
| TextOverlap.OverlapSharesCell | issues/assets_20260706_c03_session/qa_svg_text.py:82-89 | boxes that overlap share a cell, at negative coordinates too |
| TextOverlap.OverlapMeansCommonPoint | issues/assets_20260706_c03_session/qa_svg_text.py:69-74 | the overlap is positive exactly when some point lies inside both boxes |
| TextOverlap.ViolatesIff | issues/assets_20260706_c03_session/qa_svg_text.py:100-101 | two boxes violate the gate exactly when their overlap is more than 15 percent of one of them |
| TextOverlap.OverlapIs | issues/assets_20260706_c03_session/qa_svg_text.py:69-74 | the overlap is the width times the height of the box in common, or nothing |
| TextOverlap.CommonHoldsTheCommonPoints | issues/assets_20260706_c03_session/qa_svg_text.py:69-74 | the box in common holds exactly the points inside both |
| TextOverlap.AreaIs | issues/assets_20260706_c03_session/qa_svg_text.py:63-65 | an area is width times height, neither counting as less than a millionth |
| TextOverlap.FillGrid | issues/assets_20260706_c03_session/qa_svg_text.py:81-89 | every cell lists, in order, exactly the boxes that cover it |
| Chunker.ChunkText | scripts/ingest_thesmart_products.py:95-116 | the chunks are, in order, those of the groups that are not blank, in the one grouping that fits the target: each holds the stripped text of its group, and its anchor, 0 or the length of all earlier paragraphs joined plus 2, is where that text stands in the source |
| Chunker.GroupingIsUnique | scripts/ingest_thesmart_products.py:101-113 | only one grouping meets that description, so the chunks of a text are determined by it |
| Chunker.AnchorPointsAtGroup | scripts/ingest_thesmart_products.py:99-115 | the anchor of a group is where its unstripped text stands in the source |
| Chunker.ParagraphsJoinBack | scripts/ingest_thesmart_products.py:101 | splitting at blank lines loses nothing |
| Chunker.ParagraphsHaveNoBreak | scripts/ingest_thesmart_products.py:101 | no paragraph holds a blank line, so the split is a full one |
| Chunker.ParagraphsEndEarly | scripts/ingest_thesmart_products.py:101 | a blank line is taken as early as it comes: no paragraph but the last ends in a line break |
| Chunker.GroupsFitAndAreFull | scripts/ingest_thesmart_products.py:102-113 | each group spans at most the target unless it is single, and was closed only for want of room |
| Chunker.GroupsByTheirTexts | scripts/ingest_thesmart_products.py:102-113 | by the length of their texts: a group takes up at most the target unless it is one paragraph, and would not with the next |
| Chunker.BlankExactlyIfStripsToNothing | scripts/ingest_thesmart_products.py:104-114 | a group has no chunk exactly when it is all white space |
| Chunker.ContentStartsAtAnchorUnlessIndented | scripts/ingest_thesmart_products.py:104-115 | when the stripped content starts at the anchor |
| VaultImport.Vault.Import | packages/component-kb/bodesign_component_kb/repository.py:1223-1336 | the nested loops do the steps of the manifest in order and stop at the first error; every spec row and every component has its audit entry |
| VaultImport.Vault.WriteSpec | packages/component-kb/bodesign_component_kb/repository.py:574-623 | complaints in the order unknown field, no value, no actor, no component, before any change; else one row with all columns under the canonical path, verified only with evidence, its audit entry, and the component if it was not there |
| VaultImport.ComplaintsAre | packages/component-kb/bodesign_component_kb/repository.py:574-606 | when a spec is written, and which complaint comes first |
| VaultImport.StoredIs | packages/component-kb/bodesign_component_kb/repository.py:604-606 | all columns are stored as given, but nothing is verified without a chunk or a note that is not blank |
| VaultImport.ResolvesIffRooted | packages/component-kb/bodesign_component_kb/repository.py:75-95 | a field resolves, to itself or to what it is an alias of, exactly when that is a root of the registry, a dot and a leaf |
| VaultImport.SectionPathResolves | packages/component-kb/bodesign_component_kb/repository.py:75-95 | a section's key resolves unless blank, to its path without trailing white space |
| VaultImportLaws.EveryScalarHasARow | packages/component-kb/bodesign_component_kb/repository.py:1263-1336 | after a complete import every scalar has an import row with its value, and earlier rows are unchanged |
| VaultImportLaws.SecondImportAddsNothingIffTidy | packages/component-kb/bodesign_component_kb/repository.py:1281-1309 | importing again leaves the rows as they are if and only if no scalar's key has trailing white space |
| VaultImportLaws.ConflictsAreExact | packages/component-kb/bodesign_component_kb/repository.py:1295-1328 | for every manifest: the report lists exactly the pairs of an earlier and a newly written row that disagree and whose new row is stored under the path it was asked for under; both rows are kept |
| VaultImportLaws.TidyConflictsAreAll | packages/component-kb/bodesign_component_kb/repository.py:1295-1328 | without white space behind keys the report is all disagreeing pairs of one component and field, and no others |
| VaultImportLaws.ConflictsAreListedInOrder | packages/component-kb/bodesign_component_kb/repository.py:1319-1336 | the report lists each conflict once, new row by new row and earlier row by earlier row |
| VaultImportLaws.CountersAddUp | packages/component-kb/bodesign_component_kb/repository.py:1259-1309 | every scalar is either written as one row or skipped |
| VaultImportLaws.SameValueMeansEqual | packages/component-kb/bodesign_component_kb/repository.py:1284-1290 | the duplicate check is equality but for the number that stands for NULL |
| VaultImportEntries.EveryNewRowIsAScalar | packages/component-kb/bodesign_component_kb/repository.py:1263-1318 | whether it runs to its end or not, every row an import adds is that of a scalar of some entry: its component, canonical path, number or text, a note with the source, verified if and only if the entry names a source, and no other column |
| VaultImportEntries.EveryScalarIsFound | packages/component-kb/bodesign_component_kb/repository.py:1263-1318 | after an import that ran to its end every scalar of every entry has its row |
| VaultImportEntries.StepsAreTheScalars | packages/component-kb/bodesign_component_kb/repository.py:1263-1291 | an import reads every scalar of every registered section of every entry with a part number and a readable file, and nothing else |
| VaultImportEntries.EntriesInOrder | packages/component-kb/bodesign_component_kb/repository.py:1263-1283 | entries are read in the order of the manifest |
| VaultImportEntries.RootsInOrder | packages/component-kb/bodesign_component_kb/repository.py:1284-1288 | sections in the order of the registry |
| VaultImportEntries.SectionsInOrder | packages/component-kb/bodesign_component_kb/repository.py:1288-1290 | fields in the order of their section |
| VaultImportEntries.WriteSays | packages/component-kb/bodesign_component_kb/repository.py:1291-1318 | a scalar is skipped exactly when an import row says the same under the path asked for, else it is an error exactly when its key is blank, else it is written |
| VaultImportEntries.ImportSucceedsIff | packages/component-kb/bodesign_component_kb/repository.py:1263-1318 | on rows as `write_spec` leaves them, an import runs to its end if and only if every part number read has a key and no scalar a blank one |
| VaultImportEntries.ImportedComponents | packages/component-kb/bodesign_component_kb/repository.py:1279-1283 | a complete import counts the entries it read and has put in place the component of each |
| VaultImportEntries.DisagreeingSpecs | packages/component-kb/bodesign_component_kb/repository.py:1319-1324 | two rows conflict when their numbers differ, or, if neither has one, their texts |
| VaultImportEntries.ImportNotesAre | packages/component-kb/bodesign_component_kb/repository.py:1294-1300 | the duplicate check takes for an import note what starts with the prefix, in any case of letters |

## Left out

- Transport, authentication, XML, schemas, signing and regular expressions: the models start from parsed requests and records.
- `uuid7`, hashing and lock-token randomness: fresh values and function parameters.
- Feature graph: the schema number, anchor, parameter and closing integrity checks around the node list (lines 563-586).
- Manifest: `byte_size` is an integer, so Python's acceptance of booleans there is not modelled; `str.lower` is modelled on ASCII.
- Rigid frame: rounding of floats.
- Fidelity gate: the netlist exporter and the node regular expression; a sheet is its list of nets, or a failed export.
- Outbox: the operator's live file is written in one step, so a torn or unreadable file is not modelled; time stamps, back-off,
  validation of the submitted fields and the wake socket are left out; one sidecar at a time.
- OutboxAdapter.Adapter.RequeueOne: states the uninterrupted call; its interleavings are in OutboxRecords.
- CacheTree.Copy: requires that the destination is not inside the source, which the code does not support.
- Cache store: symbolic links, traversal checks, failing `rmtree`, corrupt sidecars and threads; warnings before a sweep.
- Lock table: threads; the lock discovery XML.
- KbSearch: ranking, limits and the type filter; texts with NUL characters; how a phrase is looked up in the trigram index.
- Text overlap: parsing and de-duplication of text elements, and the sorted, rounded listing of the violations.
- Chunker: the ingest around `chunk_text`; the chunk kind is constant and dropped.
- Vault import: the actor's name and the values in an audit entry; manufacturers, categories and descriptions of components; reading and parsing the cache files, of which the
  model keeps whether they could be read; NaN and integers too large for a float.
- KbSearch: the spelling of `match_mode`; the model is told whether all long tokens are wanted.
- VaultImportLaws.EveryScalarHasARow: assumes the stored paths are canonical, which is what `write_spec` stores.
