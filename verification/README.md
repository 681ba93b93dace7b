# A verified model of rust-quality-lens' evidence kernel

rust-quality-lens turns what a compiler adapter, a syntax scanner and external tools observed about a Rust
project into graphs, indices, scores and a pass/fail verdict. This project models that kernel in Dafny and
proves what the code is for: that a verdict rests on complete and current evidence, that nothing observed is lost
or counted twice on the way, and that every consumer that re-validates an artifact by recomputation agrees with
the producer. Run `dafny verify dfyconfig.toml` to check it.

## Layout

| files | subject |
|---|---|
| `Order`, `Json`, `Bytes` | string order, sorted sets, rearrangements; JSON objects; bytes and UTF-8 |
| `Topology`, `Patterns` | depth-first cycle search; `*`/`**` selectors and rule evaluation |
| `Capture`, `Profiles`, `ContextGraph`, `ContextEdges`, `Inventory`, `TypeRows`, `ArchPolicy`, `ArchIdentities` | the compiled pipeline: captured module trees and profiles, per-context graphs, the report, type rows, the architecture policy and what identity numbering does to it, and each one's validator |
| `Halstead`, `Codec`, `Columns`, `Fingerprint` | the token scanner; percent encoding and LSP framing; UTF-16 columns; the FNV hash and the input fingerprint |
| `Practices`, `PracticeGroups`, `Identity` | the lossless practice projection and its inverse; identity numbering over JSON trees |
| `Publication` | staged publication, as one writer's object and as a state machine over all writers |
| `GateInputs`, `Waivers`, `Gate`, `GateProperties`, `GateMeaning` | artifact states, waivers and classification, the gate, its safety and monotonicity, and what passing certifies |
| `SuperPaths`, `TypeImpls`, `TypeImplOrder`, `ModulePaths`, `ModuleGraph`, `ModuleGraphProperties`, `Lexical`, `LexicalScopes`, `LexicalMeaning` | name resolution from syntax |
| `Risk` | capped and rounded risk scores |

The functions that the methods are proved to compute are pinned down by laws that do not mention them: what an edge,
a finding, an owner, a resolution, a count or a verdict means is stated over the inputs.

Code that changes things step by step is modelled by methods and classes whose contracts equate the new state with
a specification; the lemmas are about that specification. Code made of expressions is modelled by functions.
A `&mut` argument of a free function is a value that goes in and comes out.

## Findings

- `percent_decode` accepts an escape whose first digit is `+`, because the number parser behind it accepts a sign.
  A text has well-formed escapes if and only if they are decoded and it contains no `%+` (`Percent.WellFormedIff`);
  such a plus sign is read as a zero (`Percent.SignReadAsZero`).
- The practice projection gives the document back exactly when every `diagnostics` inventory is a list; artifact
  validation demands that (src/contracts/validation.rs:249-250), the projection alone does not
  (`Practices.ProjectionLossless`).
- The report check does not recompute the confidence of a report, so a report with capture failures can pass as
  complete (`Inventories.FailuresPassAsComplete`); `Inventories.AcceptedProducedIff` says exactly which accepted
  reports an inventory produces. The architecture policy check, which rebuilds the report from its own inventory,
  accepts no others (`ArchPolicy.AcceptedIffProduced`).
- Halstead counts are not additive over arbitrary splits of a token stream: `Halstead.AdditiveIff` gives the exact
  condition on the first part.
- The stream the input fingerprint hashes is ambiguous for files that contain the byte 0xff: one file can then be
  hashed like two (`Fingerprint.OneReadsLikeTwo`). For files without it, UTF-8 text among them, the stream determines
  paths and contents (`Fingerprint.StreamDetermines`).
- The caps on the change and architecture scores never cut anything off (`Risk.NothingCut`); the cap on the
  correctness score does (`Risk.CorrectnessCut`).

## Assumptions

- `stable_hash` and context hashing are function parameters. Where distinct inputs must get distinct hashes this is
  a named hypothesis about the values present, `HashSeparates`; so is, for the JSON text that keys the practice
  findings, `PracticeGroups.TextSeparates`.
- Rules and paths have no zero characters where the subjects they make up must be told apart, and paths none where
  they are hashed.
- Clocks, fingerprints of the inputs, file contents, the logarithm, the JSON text used as a sort key and white-space
  squeezing are parameters.
- Floating point is modelled by reals, with half-away-from-zero rounding written out.
- The FNV offset basis is a parameter, since two parts of the repository use different ones.

## Model

| member | source | states |
|---|---|---|
| `Topology.PathExists` | src/artifacts/topology.rs:20-35 | The search answers yes only along a real path. When it answers no, everything it newly marked is closed under dependencies and avoids the target, although the marks are shared with earlier searches. |
| `Topology.CycleModules` | src/artifacts/topology.rs:6-18 | Exactly the modules on a dependency cycle, that is those that reach themselves by a non-empty path; the search always ends. |
| `Topology.AcyclicIffLayered` | src/artifacts/topology.rs:6-18 | No module is on a cycle exactly when the modules can be ranked so that every dependency descends: an independent account of what an empty result certifies. |
| `Patterns.JoinSplit` | src/architecture.rs:96-100 | Splitting a module id or pattern at `::` loses nothing. |
| `Patterns.SplitJoin` | src/architecture.rs:96-100 | Joined segments without colons split back into themselves. |
| `Patterns.MatchMeaning` | src/architecture.rs:102-115 | The recursive matcher agrees with the declared meaning: `*` takes one segment, `**` any run of segments, anything else itself. |
| `Patterns.MatchConcat` | src/architecture.rs:102-115 | A concatenated pattern matches exactly when the value can be cut so that each part matches its piece. |
| `Patterns.AdjacentStarsCollapse` | src/architecture.rs:102-115 | Two adjacent `**` match what one does, in any context. |
| `Patterns.ViolationMeaning` | src/architecture.rs:57-94 | A dependency violates a rule exactly when its source is selected and its target is denied or outside a non-empty allow list. |
| `Patterns.Evaluate` | src/architecture.rs:20-41 | Reports exactly the violations of the enabled rules, each once, in strictly increasing key order. |
| `Patterns.EvaluateRule` | src/architecture.rs:43-55 | Finds exactly the violations of one rule, without repetition, whatever order the dependency map is walked in. |
| `Patterns.EvaluationDetermined` | src/architecture.rs:20-41 | The report is determined by the set of violations, so the iteration order of the hash maps cannot show in it. |
| `Capture.WalkToRoot` | src/compiler_inventory/architecture.rs:119-137 | The cursor loop ends on every parent map and succeeds exactly when the chain of parents reaches a root, cycles and missing parents included. |
| `Capture.ValidateModuleTree` | src/compiler_inventory/architecture.rs:108-139 | Accepts exactly the rooted trees of well-formed modules and returns exactly their ids. |
| `Capture.ChainsIffDepths` | src/compiler_inventory/architecture.rs:119-137 | Every module's chain reaches a root exactly when there is a depth function that descends along parents. |
| `Capture.ChainReachesRoot` | src/compiler_inventory/architecture.rs:108-139 | In an accepted capture every module's chain of parents ends at the one root, in as many steps as its depth. |
| `Capture.TreeVerdictIgnoresOrder` | src/compiler_inventory/architecture.rs:108-139 | Reordering the modules never changes the verdict. |
| `Capture.ValidateDeclarations` | src/compiler_inventory/architecture.rs:141-151 | Accepts exactly distinct, non-empty declarations owned by known modules, and returns exactly their ids. |
| `Capture.ValidateCapture` | src/compiler_inventory/architecture.rs:80-106 | Accepts exactly the captures with a rooted module tree, sound declarations and references between known ends. |
| `Capture.NothingMissing` | src/compiler_inventory/architecture.rs:153-178 | A capture misses no evidence exactly when it has no limitation, covers every category, knows every target and locates everything. |
| `Profiles.Define` | src/compiler_inventory.rs:198-204 | The set-growing id check accepts exactly new, non-empty, mutually distinct ids. |
| `Profiles.AssignMethods` | src/compiler_inventory.rs:145-196 | Accepts exactly when no method belongs to two impls and every method is a known function. |
| `Profiles.ValidateProfile` | src/compiler_inventory.rs:145-196 | The looping validator accepts exactly the profiles its declarative contract describes. |
| `ContextGraph.BuildContext` | src/compiler_inventory/architecture_graph.rs:111-199 | The loop that updates node table, edges, unresolved list and reasons computes the projection whose meaning `ContextEdges` gives in terms of the captured lists. |
| `ContextGraph.ProjectionShape` | src/compiler_inventory/architecture_graph.rs:111-199 | Edges are in key order, never empty, never from a module to itself, and both ends are in the node table, so no later lookup of an end can fail. |
| `ContextGraph.ReferencesConserved` | src/compiler_inventory/architecture_graph.rs:145-184 | Every captured reference lands exactly once, counted with multiplicity: on an edge, in the unresolved list, or as a dependency inside its own module. |
| `ContextGraph.ReferencesPlaced` | src/compiler_inventory/architecture_graph.rs:145-184 | An edge's observations are all the references from its source to its target in capture order, and the unresolved list is exactly what could not be placed. |
| `ContextGraph.NothingMissingIffResolved` | src/compiler_inventory/architecture_graph.rs:111-199 | A graph misses nothing exactly when its context was captured, the capture misses nothing and every reference was placed. |
| `ContextGraph.LocalCaptureResolves` | src/compiler_inventory/architecture_graph.rs:145-184 | A valid capture whose references are all local leaves nothing unresolved. |
| `ContextEdges.EdgeIffReferred` | src/compiler_inventory/architecture_graph.rs:131-184 | In the graph of a valid capture two nodes are joined by an edge exactly when some reference is declared in the one and leads to the other: locally to the module that declares the target, externally to the module the only captured profile of the crate has, or out of the inventory when there is none. |
| `ContextEdges.EdgeObservations` | src/compiler_inventory/architecture_graph.rs:145-184 | The observations of an edge are exactly those references, in capture order. |
| `ContextEdges.UnresolvedAstray` | src/compiler_inventory/architecture_graph.rs:145-184 | Unresolved are exactly the references that lead nowhere, in capture order: unknown targets, crates with several captured profiles, and modules not inventoried or contradicted by a declaration. |
| `ContextEdges.LocalJoins` | src/compiler_inventory/architecture_graph.rs:131-147 | A local reference joins two different modules exactly when one declares its source and the other its target. |
| `ContextEdges.NodesMean` | src/compiler_inventory/architecture_graph.rs:35-100 | Every node is listed under its own id with the selector, path, package and origin of the module it stands for; all modules of the capture are there. |
| `Inventories.ValidateCoverage` | src/compiler_inventory/capture.rs:367-387 | Accepts exactly when the captured contexts are distinct and are the expected ones. |
| `Inventories.CoveredMeans` | src/compiler_inventory/capture.rs:367-387 | Coverage is a one-to-one correspondence between captured profiles and expected contexts, of which there is at least one. |
| `Inventories.ValidateProfiles` | src/compiler_inventory.rs:334-341 | Accepts exactly valid profiles with distinct context ids. |
| `Inventories.ValidateReport` | src/compiler_inventory.rs:318-397 | The consumer's early-exit check of a report decides exactly the declared acceptance condition. |
| `Inventories.ConfidenceMeans` | src/compiler_inventory.rs:266-291 | Types are known completely exactly when nothing failed, the inputs are known, something was captured, and every type and every impl of a local type has a place. |
| `Inventories.ReportAcceptedIff` | src/compiler_inventory.rs:297-311 | The report of an inventory passes the report check exactly when the inventory is valid. |
| `Inventories.CollectedReportAccepted` | src/compiler_inventory.rs:243-311 | Whatever collection hands over, validated profiles covering the selection or nothing at all, makes an acceptable report, provided the hash separates the contexts present. |
| `Inventories.FailuresPassAsComplete` | src/compiler_inventory.rs:318-397 | A finding: capture failures written into any accepted complete report leave it accepted and complete, although no inventory produces it. |
| `Inventories.AcceptedProducedIff` | src/compiler_inventory.rs:318-397 | An accepted report is one that some inventory produces exactly when its expected contexts are in set order, it carries its graphs and capture count, and its confidence is the one its own contents give. |
| `TypeRows.ValidateImplementations` | src/compiler_inventory/projection.rs:67-85 | The set-filling check accepts exactly distinct impls and methods of the given owner and returns the number of methods. |
| `TypeRows.ValidateTypeProjection` | src/compiler_inventory/projection.rs:25-65 | Accepts exactly the rows whose counts, files and nulls agree with their own implementations and completeness. |
| `TypeRows.ValidateTypeHealth` | src/contracts/validation.rs:165-217 | Accepts exactly the rows that satisfy the row contract, compiled or not. |
| `TypeRows.ValidateRows` | src/contracts/validation.rs:144-163 | Accepts exactly artifacts whose rows are all healthy, complete when the artifact is, and whose compiled rows have distinct keys. |
| `TypeRows.TypeRowAccepted` | src/compiler_inventory/projection.rs:93-131 | Every row produced from a valid profile passes both the projection check and the row check. |
| `TypeRows.InventoryRowsAccepted` | src/compiler_inventory/projection.rs:9-23 | The whole produced artifact passes the artifact check at the completeness the producer claims. |
| `TypeRows.ImplBlocksConserved` | src/compiler_inventory/projection.rs:93-131 | The rows of a valid profile count every impl with a local owner exactly once. |
| `TypeRows.TypeHasRow` | src/compiler_inventory/projection.rs:9-23 | Every type of every profile has a row that gives the compiler's record of it back, with its profile's package, crate and context and exactly the profile's impls of it. |
| `TypeRows.RowHasType` | src/compiler_inventory/projection.rs:93-131 | Every row is such a row. |
| `ArchPolicy.CollectViolations` | src/compiler_inventory/architecture_policy.rs:10-62 | The nested loops over graphs, enabled rules and edges collect exactly the rows that `EveryViolationReported` and `EveryRowIsViolation` characterise; their lookups of edge ends are always defined. |
| `ArchPolicy.StripIdentities` | src/compiler_inventory/architecture_policy.rs:116-125 | Removing keys row by row in place leaves every row as it was but for its identity. |
| `ArchPolicy.ValidatePolicy` | src/compiler_inventory/architecture_policy.rs:92-131 | The consumer accepts exactly what recomputation from the embedded report gives, up to added identities. |
| `ArchPolicy.AcceptedIffProduced` | src/compiler_inventory/architecture_policy.rs:92-131 | A payload is accepted exactly when some valid inventory and rule set produce it, up to the identities normalization may add. |
| `ArchIdentities.NormalizedAccepted` | src/compiler_inventory/architecture_policy.rs:92-131 | What identity numbering makes of the produced payload, walked as JSON, still passes the consumer's recomputation. |
| `ArchIdentities.RowsMarked` | src/findings.rs:87-138 | On the violations of a policy the walk adds an identity to every row and changes nothing else. |
| `ArchPolicy.EveryViolationReported` | src/compiler_inventory/architecture_policy.rs:16-53 | Every violated enabled rule has a row that tells the rule, the context, both ends, the place of the source and the origin of every reference behind it. |
| `ArchPolicy.EveryRowIsViolation` | src/compiler_inventory/architecture_policy.rs:16-53 | No reported row is invented: each one tells such a violation. |
| `ArchPolicy.OneRowEach` | src/compiler_inventory/architecture_policy.rs:16-53 | A rule has just one row for each edge that violates it. |
| `ArchPolicy.SummaryMeans` | src/compiler_inventory/architecture_policy.rs:54-61 | The summary counts what the payload holds, and the violations are listed in the order of their texts. |
| `ArchIdentities.FieldsWritten` | src/compiler_inventory/architecture_policy.rs:32-48 | What the identity walk and the policy gate read of a violation is where they look for it. |
| `ArchIdentities.SeverityWritten` | src/compiler_inventory/architecture_policy.rs:33-35 | A violation carries the severity of its rule in the words the policy gate reads. |
| `ArchPolicy.CompleteMeans` | src/compiler_inventory/architecture_policy.rs:64-90 | Complete confidence is given exactly when nothing failed, inputs and contexts were all observed, every capture is complete and no reference is unresolved. |
| `Halstead.Punctuation` | rust_helpers/src/halstead.rs:143-159 | The loop of up to three joined tokens takes a maximal munch: it is an operator, and no longer prefix is. |
| `Halstead.MunchUnique` | rust_helpers/src/halstead.rs:143-159 | There is only one maximal munch, so the operator read is determined by the tokens. |
| `Halstead.Counts.ScanStream` | rust_helpers/src/halstead.rs:48-57 | Scanning ends and adds exactly the stream's tally to whatever was counted before. |
| `Halstead.Counts.ScanToken` | rust_helpers/src/halstead.rs:59-93 | One token adds exactly its tally and consumes exactly its length: nested groups, lifetimes and munched operators included. |
| `Halstead.WordsCounted` | rust_helpers/src/halstead.rs:70-77 | In a stream of words the reserved ones are the operators and the others, as identifiers, the operands, and every occurrence counts once. |
| `Halstead.LiteralCounted` | rust_helpers/src/halstead.rs:78-78 | A literal is one operand. |
| `Halstead.GroupCounted` | rust_helpers/src/halstead.rs:61-69 | A group counts what is in it, and its delimiters as one operator if it has any. |
| `Halstead.LifetimeCounted` | rust_helpers/src/halstead.rs:79-86 | A quote joined to a name is one operand, the lifetime. |
| `Halstead.OperatorCounted` | rust_helpers/src/halstead.rs:87-90 | Joined punctuation that spells an operator is that operator, once, and so is a single mark. |
| `Halstead.ScanAdditive` | rust_helpers/src/halstead.rs:48-93 | Where no head is pending at the end of the first part, scanning a concatenation sums the totals and unites the vocabularies. |
| `Halstead.AdditiveIff` | rust_helpers/src/halstead.rs:48-159 | That holds for every second part exactly when nothing is pending: each pending end has a continuation that breaks it. |
| `Halstead.CleanIsClosed` | rust_helpers/src/halstead.rs:48-159 | Nothing is pending after tokens that end neither in joined punctuation nor in the beginning of an attribute, which the last two tokens show. |
| `Halstead.AttributesInvisible` | rust_helpers/src/halstead.rs:131-141 | Inserting `#[...]` or `#![...]` where no head is pending changes no count. |
| `Halstead.DistinctWithinTotal` | rust_helpers/src/halstead.rs:95-129 | Distinct operators and operands never exceed the totals. |
| `Halstead.DifficultyMeans` | rust_helpers/src/halstead.rs:95-129 | Difficulty is half the distinct operators times the average use of an operand, so at least half the distinct operators, and just that when no operand is used twice; effort is difficulty times volume. |
| `Halstead.VolumeMeans` | rust_helpers/src/halstead.rs:95-129 | Volume counts every use at the bits its choice from the vocabulary takes; an empty scope has neither volume nor effort. |
| `Halstead.JoinedMetrics` | rust_helpers/src/halstead.rs:95-129 | Joining two sources where no head is pending adds lengths, bounds the vocabulary by both sides, never loses volume under a monotone logarithm, and leaves effort undefined exactly when there are operators and no operands. |
| `Percent.DecodeEncode` | src/semantic.rs:899-929 | Decoding undoes encoding on every byte string (section 2.1 of RFC 3986). |
| `Percent.EncodedAlphabet` | src/semantic.rs:899-912 | An encoded path consists of unreserved bytes and percent signs only. |
| `Percent.ByteEncoded` | src/semantic.rs:899-912 | Letters, digits and `/ : - _ . ~` stand for themselves, so a path keeps its separators; every other byte becomes a percent sign and two upper-case hexadecimal digits. |
| `Percent.PercentDecode` | src/semantic.rs:914-929 | The index loop is the decoding whose round trip and domain the neighbouring rows give, and it fails on invalid UTF-8 besides. |
| `Percent.DecodedIff` | src/semantic.rs:914-929 | The escapes are decoded exactly when every percent sign is followed by a hex digit or plus sign and then a hex digit. |
| `Percent.WellFormedIff` | src/semantic.rs:914-929 | A finding: escapes are well-formed (section 2.1 of RFC 3986) if and only if they are decoded and the text contains no `%+`. |
| `Percent.SignReadAsZero` | src/semantic.rs:914-929 | Every text decodes like the one with a zero for each such plus sign, which is well-formed if the text is decoded. |
| `Framing.Transport.Send` | src/semantic.rs:781-787 | Appends exactly one frame to what the other side has not read. |
| `Framing.FrameMeans` | src/semantic.rs:781-787 | A frame spells the name of the length header, the body's length in decimal digits, a blank line and the body. |
| `Framing.Transport.ReadMessage` | src/semantic.rs:817-838 | The line-by-line reader takes exactly one message off the unread bytes, or reports their end or what is wrong with them. |
| `Framing.ReadFramed` | src/semantic.rs:817-838 | A message is read whole with any other headers before and after its length header (Language Server Protocol 3.17, Base Protocol). |
| `Framing.FramesRoundTrip` | src/semantic.rs:817-838 | Reading what was sent gives back exactly the bodies, in order, and then the end of the stream. |
| `Columns.ColumnToByte` | src/semantic.rs:505-514 | The byte offset of the first character at or past a UTF-16 column, or of the end of the line. |
| `Columns.ColumnRoundTrip` | src/semantic.rs:505-514 | The UTF-16 column of a character leads back to that character and to no other. |
| `Columns.Utf16Means` | src/semantic.rs:505-514 | A character has one form in UTF-16 (section 2.1 of RFC 2781), of as many units as the column counts for it. |
| `Columns.Utf8Holds` | src/semantic.rs:505-514 | The bytes counted for a character hold its code point (section 3 of RFC 3629). |
| `Columns.IdentifierAt` | src/semantic.rs:489-503 | The byte-wise search yields the longest run of identifier characters around the column and never splits a character. |
| `Fingerprint.Fnv1a` | src/util.rs:257-263 | The byte loop is exactly the fold whose concatenation, inverse and one-byte laws follow. |
| `Fingerprint.FnvConcat` | src/util.rs:257-263 | Hashing a concatenation continues from the state of its first part. |
| `Fingerprint.StepInverse` | src/util.rs:257-263 | Every step is a bijection of the 64-bit states, with an explicit inverse. |
| `Fingerprint.FnvInverse` | src/util.rs:257-263 | So is hashing any fixed text. |
| `Fingerprint.OneByteChangesHash` | src/util.rs:257-263 | Two texts that differ in exactly one byte never hash alike. |
| `Fingerprint.DigestInjective` | src/util.rs:225-255 | The sixteen hexadecimal digits determine the state. |
| `Fingerprint.DigestReads` | src/util.rs:225-255 | Read as sixteen hexadecimal digits the digest is the hash state. |
| `Fingerprint.QualityFingerprint` | src/util.rs:225-255 | The loop over files hashes exactly the framed stream of names and contents, counts the readable files and reports every unreadable one. |
| `Fingerprint.OneByteChangesDigest` | src/util.rs:225-255 | Changing exactly one byte of one file always changes the digest, for any number of files. |
| `Fingerprint.OnePathByteChangesDigest` | src/util.rs:225-255 | So does changing one byte of one file's path. |
| `Fingerprint.StreamDetermines` | src/util.rs:225-255 | What is hashed of files without the byte 0xff determines their paths and contents: other files give the same stream exactly when they are the same or contain that byte. |
| `Fingerprint.OneReadsLikeTwo` | src/util.rs:225-255 | A finding: a file that contains that byte can be hashed like two files. |
| `Identity.Rewrite` | src/findings.rs:87-138 | The in-place walk over arrays and objects is exactly the traversal whose numbering, distinctness and idempotence follow, occurrence table included. |
| `Identity.VisitNumbers` | src/findings.rs:87-138 | The identities a walk assigns are its numbered subjects in traversal order: they depend on nothing else in the value. |
| `Identity.VisitMarks` | src/findings.rs:87-138 | After the walk every object with a textual rule, at any depth, carries an identity and its version. |
| `Identity.NumberedAt` | src/findings.rs:87-138 | The n-th occurrence of a subject gets number n. |
| `Identity.SubjectsAlikeIff` | src/findings.rs:87-138 | Two records have the same subject exactly when they are about the same rule and path and their anchors, the source line if there is one, agree up to white space: lines may have shifted. |
| `Identity.IdentitiesDistinct` | src/findings.rs:80-138 | All identities assigned to a list of records are pairwise distinct when the hash separates the subjects present. |
| `Identity.NormalizeIdempotent` | src/findings.rs:80-138 | Normalizing normalized records changes nothing. |
| `Practices.CollectDiagnostics` | src/findings/practices.rs:53-96 | The nested loops that replace diagnostics by references and fill the groups are exactly the projection whose losslessness follows. |
| `PracticeGroups.OneFindingIff` | src/findings/practices.rs:74-87 | Two listed diagnostics are observations of one finding exactly when they agree on every field but their identities. |
| `PracticeGroups.FindingSays` | src/findings/practices.rs:74-87 | A finding says what each of its observations says and carries no identity of theirs. |
| `PracticeGroups.ObservedIffListed` | src/findings/practices.rs:53-96 | The findings observe exactly the diagnostics the document lists, each at its place. |
| `Practices.Reconstruct` | acceptance/reporter_campaign.py:116-127 | The overwriting loop restores the diagnostics by following references, and fails unless each one leads to the observation of its own check and position. |
| `Practices.ProjectionLossless` | acceptance/reporter_campaign.py:116-127 | Reconstruction always succeeds on a projection, and gives back the original exactly when every diagnostics inventory is a list, which artifact validation demands. |
| `Practices.IndexExists` | src/findings/practices.rs:17-51 | The consumer's dictionary of findings exists whenever the hash separates the groups. |
| `Practices.ObservationsTotal` | src/findings/practices.rs:53-96 | The observations of all groups together are as many as the diagnostics collected. |
| `Practices.ReorderingKeepsIds` | src/findings/practices.rs:53-96 | Reordering the checks keeps the set of finding ids. |
| `Publication.Batch.Open` | src/measurement/batch.rs:42-73 | Opens exactly when no marker is there; a refused batch leaves the marker, a failed copy gives it back; the staged view is the standard artifacts as they are. |
| `Publication.Batch.Write` | src/measurement/batch.rs:75-83 | Stages a document under a JSON basename and refuses any other name without effect. |
| `Publication.Batch.Publish` | src/measurement/batch.rs:85-97 | Changed inputs leave the destination untouched; a failing rename leaves the old artifacts overlaid by the preceding ones in name order; the marker is given back in every case. |
| `Publication.OverlayValue` | src/measurement/batch.rs:85-97 | After an overlay every named artifact is the staged one and every other is the old one. |
| `Publication.NextKeepsInv` | src/measurement/batch.rs:42-97 | Every step of every writer, crash, operator or input change keeps the invariant: marker and batch coincide, one batch at most, and the destination is its base overlaid by a prefix of what the batch wrote. |
| `Publication.RunKeepsInv` | src/measurement/batch.rs:42-97 | So it holds in every state of every interleaving. |
| `Publication.OneBatchAtATime` | src/measurement/batch.rs:20-40 | In no run are there two batches, and while there is one, live or crashed, none can start. |
| `Publication.PublishedInputsWereStable` | src/measurement/snapshot.rs:24-33 | A batch publishes only after its inputs were seen to have the fingerprint of its snapshot. |
| `Publication.AbandonedBatch` | src/measurement/batch.rs:85-97 | A batch that ends or crashes before publishing leaves the destination as it found it; later it leaves a prefix of its artifacts in name order over the old ones. |
| `Publication.FinishedBatch` | src/measurement/batch.rs:85-97 | A successful batch leaves the destination equal to its staged view on everything it staged or wrote, and untouched elsewhere. |
| `GateInputs.Load` | src/policy/inputs.rs:18-41 | Gives every artifact a state; an artifact is available exactly when it is valid, complete and measured from the present inputs under the present configuration. |
| `Waivers.BelowIffSegmentPrefix` | src/config.rs:418-430 | A subtree pattern covers a path exactly when the root's segments begin the path's segments, so it never splits a segment. |
| `Waivers.PatternMeaning` | src/config.rs:418-430 | A pattern that ends in slashes and `**` covers what the segments before begin, any other pattern itself alone. |
| `Waivers.SeparatorsAlike` | src/config.rs:418-430 | Backslashes separate as slashes do, in patterns and in paths. |
| `Waivers.WaivedIff` | src/findings.rs:66-74 | A finding is waived exactly when it is waivable and some unexpired waiver covers it, wherever the waiver stands. |
| `GateMeaning.ErrorsMean` | src/findings.rs:7-53 | A finding is an error exactly when its disposition or, without a known one, its severity blocks, no waiver in force excuses it and, if it is about reliability, it is in production. |
| `Waivers.ApplyWaivers` | src/policy.rs:396-407 | Splits the findings in order into the unwaived ones and the waived ones with their waivers. |
| `Waivers.Classify` | src/policy.rs:378-394 | Errors, warnings, waived and out-of-scope findings are each kept in order, and together are all the findings, each once. |
| `Waivers.PartsPartition` | src/policy.rs:378-394 | The four classes partition the findings with multiplicity. |
| `Gate.InputFailures` | src/policy/inputs.rs:43-74 | The pushed failures are exactly those the enabled policies and error-level architecture rules call for. |
| `Gate.EvaluateRules` | src/policy.rs:409-458 | One outcome per configured rule in the order of the ids. |
| `Gate.RuleCounts` | src/policy.rs:409-458 | A rule observes exactly the findings of all five sources that are about it, unwaived, selected and not excluded. |
| `Gate.FailedPolicies` | src/policy.rs:120-135 | The names pushed are exactly those of the failing policies. |
| `Gate.Check` | src/policy.rs:28-180 | The check passes exactly when no policy fails, and reports exactly the failing policies, sorted, and exactly the input failures. |
| `GateMeaning.MetIff` | src/policy/inputs.rs:176-188 | An enabled policy does not fail exactly when what it demands, spelled out policy by policy, was read: which artifacts must be valid, complete and current, and what they must say. |
| `GateMeaning.RuleMeans` | src/policy/inputs.rs:76-125 | An error-level rule holds exactly when the artifact of its family or of the architecture checks was good, the check had run, and no more findings count against the rule than its maximum. |
| `GateMeaning.OutcomeMeans` | src/policy.rs:409-458 | The report of a rule gives how many findings count, how many are excluded, and how the rule did. |
| `GateMeaning.PassesMeans` | src/policy.rs:28-180 | The check passes exactly when all that is met on what was read, together with the architecture, external and baseline conditions. |
| `GateMeaning.StateMeans` | src/policy/inputs.rs:202-248 | Each state of an artifact, in terms of what reading it came to. |
| `GateProperties.PassesIff` | src/policy.rs:28-180 | It passes exactly when there is no failure, no evidence against an enabled policy, no broken rule and no architecture error. |
| `GateProperties.PassedPoliciesHadEvidence` | src/policy/inputs.rs:43-74 | Passing implies that every artifact an enabled policy needs was valid, complete and current, including the coverage and performance artifacts a regression check compares; `GateMeaning.MetIff` names them policy by policy. |
| `GateProperties.PassedRulesWereEvaluated` | src/policy/inputs.rs:76-125 | Passing implies that every error-level rule was evaluated on such an artifact and met its maximum. |
| `GateProperties.PassedRegressionWasCompared` | src/policy.rs:182-206 | The regression policy never passes without a comparable baseline, known scores and every delta within the limit. |
| `GateProperties.AddedFindingNeverPasses` | src/policy.rs:28-180 | With the input states fixed, another finding from any source never turns fail into pass. |
| `GateProperties.AddedPolicyNeverPasses` | src/policy.rs:289-303 | Enabling another policy never turns fail into pass. |
| `GateProperties.WaiverOnlyWaives` | src/policy.rs:396-407 | Another waiver moves a finding at most into the waived class, and an expired one moves nothing. |
| `GateProperties.AddedWaiverNeverFails` | src/policy.rs:28-180 | Another waiver never turns pass into fail, and an expired one changes no verdict. |
| `SuperPaths.ClimbMeaning` | src/facts/graph.rs:267-275 | Exactly the leading `super::` steps are taken, all of them, and there is no result exactly when they climb too far. |
| `SuperPaths.ClimbPath` | src/facts/type_identity.rs:142-151 | The loop that pops a module per step computes that, for types and for dependencies alike. |
| `TypeImpls.ImplIdentity` | src/facts/type_identity.rs:114-130 | The candidate itself or its only declared crate-root form, and nothing when two forms compete. |
| `TypeImpls.OwnerIff` | src/facts/type_identity.rs:64-152 | A type owns a block exactly when the block's written path, taken from its module, names it or its only crate-root form in the same package and target, where it is declared just once. |
| `TypeImpls.Define` | src/facts/type_identity.rs:34-45 | The definition loop records exactly the declared identities and exactly those declared twice. |
| `TypeImpls.TypeImplIndex.RecordImpl` | src/facts/type_identity.rs:64-84 | One block extends exactly one summary, or the unresolved count and the limitations. |
| `TypeImpls.TypeImplIndex.constructor` | src/facts/type_identity.rs:33-62 | The index holds, for every type, the methods, blocks and files of exactly the blocks it owns, and as limitations exactly the extractor's, the repeated identities and the unresolved blocks. |
| `TypeImpls.TypeImplIndex.ResolvedBlocks` | src/facts/type_identity.rs:90-111 | Resolved and unresolved blocks together are all the impl blocks. |
| `TypeImpls.BlocksConserved` | src/facts/type_identity.rs:64-84 | Every impl block is attributed to exactly one type or unresolved. |
| `TypeImpls.CompleteMeans` | src/facts/type_identity.rs:90-111 | Without limitations every block has an owner and no identity is declared twice. |
| `TypeImplOrder.AttributedExactly` | src/facts/type_identity.rs:64-84 | A type is attributed exactly the blocks it owns, each as often as it occurs. |
| `TypeImplOrder.IndexIgnoresOrder` | src/facts/type_identity.rs:33-62 | Indices built from the same facts in any two orders are equal. |
| `ModulePaths.LongestMeaning` | src/facts/graph.rs:277-294 | The result is the longest prefix that names an eligible module, and there is none exactly when no prefix does. |
| `ModulePaths.ResolveDependency` | src/facts/graph.rs:242-265 | The step-by-step rewriting of the written path and the downward prefix loop compute the resolution whose meaning the following rows give for each form of path. |
| `ModulePaths.WrittenMeaning` | src/facts/graph.rs:242-250 | White space around a path and globs after it make no difference. |
| `ModulePaths.CrateResolves` | src/facts/graph.rs:252-253 | A `crate::` path resolves to its longest prefix that is a module, whatever module it is written in. |
| `ModulePaths.SelfResolves` | src/facts/graph.rs:254-255 | A `self::` path resolves to the deepest module below its source that a prefix names, or to the source. |
| `ModulePaths.SuperResolves` | src/facts/graph.rs:256-275 | Steps out of the source and a path resolve to the longest known prefix that does not lead back around the source, and to nothing when the steps leave the crate. |
| `ModulePaths.ResolvedIsModule` | src/facts/graph.rs:242-265 | Whatever a path resolves to is a known module. |
| `ModulePaths.SuperLeaves` | src/facts/graph.rs:242-294 | A `super::` path never resolves to its source module or a module around it. |
| `ModulePaths.BareResolves` | src/facts/graph.rs:242-265 | A bare path that names a module below its source, in whole or by a prefix, resolves to the deepest such strict descendant; any other as if written from the crate root. |
| `ModuleGraph.AssignIds` | src/facts/helpers.rs:20-38 | The loop gives every file its package and target and the id that qualifies its module key with them, and changes nothing else that is modelled. |
| `ModuleGraph.AddReason` | src/facts/graph.rs:156-182 | Recording one reason keeps edges, provenance and symbols exactly those the reasons give. |
| `ModuleGraph.BuildGraph` | src/facts/graph.rs:57-87 | Edges, provenance keys, backends and symbols are exactly those some file's reasons give, and the reverse map is the exact converse. |
| `ModuleGraph.ReverseIndex` | src/facts/graph.rs:227-240 | The exact converse relation, without empty entries. |
| `ModuleGraphProperties.ReasonRecordedIff` | src/facts/graph.rs:138-219 | A reason is recorded exactly when the resolver, or for paths it did not see the syntax, of some file gives it. |
| `ModuleGraphProperties.EdgeIff` | src/facts/graph.rs:138-219 | Two modules are joined exactly when the resolver of a file, probes aside, or for paths it did not see the syntax leads from one to the other. |
| `ModuleGraphProperties.KeysListed` | src/facts/graph.rs:145-151 | The keys among which a written path is resolved are exactly those of the files of its own package and target. |
| `ModuleGraphProperties.BackendIff` | src/facts/graph.rs:156-219 | An edge carries exactly the backends that gave it, the fallback among them if syntax did. |
| `ModuleGraphProperties.SymbolIff` | src/facts/graph.rs:156-182 | And exactly the symbols the resolver named for it. |
| `ModuleGraphProperties.NoSelfEdges` | src/facts/graph.rs:138-219 | With the ids `AssignIds` gives, no edge of the graph joins a module to itself, whatever the files depend on. |
| `ModuleGraphProperties.TotalsAgree` | src/facts/graph.rs:57-87 | Out-degrees, in-degrees and provenance entries all count the same edges. |
| `Lexical.Frame.Imports` | rust_helpers/src/lexical.rs:140-148 | A use tree of any nesting binds exactly its leaves and notes any glob in it. |
| `Lexical.Frame.BindItem` | rust_helpers/src/lexical.rs:107-126 | An item binds exactly its own names, struct and enum alone as owners. |
| `Lexical.DeclaredMore` | rust_helpers/src/lexical.rs:128-138 | Binding name after name arrives at the declared meaning: an owner exactly for a name bound once, by a struct or enum. |
| `LexicalScopes.Scopes.Enter` | rust_helpers/src/lexical.rs:30-56 | Pushes exactly the frame its items declare and one record whose parent is the frame below. |
| `LexicalScopes.Scopes.Generics` | rust_helpers/src/lexical.rs:58-66 | Hides exactly the type parameters in the innermost frame and touches no other. |
| `LexicalScopes.Scopes.Owner` | rust_helpers/src/lexical.rs:72-82 | The loop over frame objects from the innermost out gives the answer whose meaning `LookupMeaning` states. |
| `LexicalScopes.Scopes.Blocked` | rust_helpers/src/lexical.rs:84-97 | So does its counterpart that says when a name must not be resolved. |
| `LexicalScopes.LookupMeaning` | rust_helpers/src/lexical.rs:72-97 | A name has an owner exactly when the innermost frame that binds it gives one and no module or glob frame stands between; it is blocked exactly when that frame gives none or a glob is met first. |
| `LexicalScopes.OwnedNotBlocked` | rust_helpers/src/lexical.rs:72-97 | A name with an owner is never blocked. |
| `LexicalScopes.LookupStops` | rust_helpers/src/lexical.rs:72-97 | What lies outside a module or glob frame never matters. |
| `LexicalScopes.OwnerAfterEnter` | rust_helpers/src/lexical.rs:99-125 | Right after a scope is entered, a bound name has an owner exactly when one struct or enum alone binds it, and the owner is the name declarations get there. |
| `LexicalMeaning.MentionedOwner` | rust_helpers/src/lexical.rs:30-148 | Right after a scope is entered, a name its items mention, in use trees of any nesting included, has an owner exactly when the only item that does declares a struct or an enum, and is blocked otherwise. |
| `LexicalMeaning.UnmentionedOwner` | rust_helpers/src/lexical.rs:30-97 | Any other name is looked for further out, but not beyond a module or a glob import, behind which it is blocked. |
| `LexicalScopes.ScopesApart` | rust_helpers/src/lexical.rs:37-38 | Within a module the scopes of one kind at different positions have different ids. |
| `LexicalScopes.ItemOrderIrrelevant` | rust_helpers/src/lexical.rs:30-56 | The order of its items never changes what a scope knows. |
| `LexicalScopes.GroupsFlatten` | rust_helpers/src/lexical.rs:140-148 | A grouped use item knows what its parts would as separate items. |
| `LexicalScopes.LeavingRestores` | rust_helpers/src/lexical.rs:58-70 | Entering, doing anything balanced, and leaving restores every answer. |
| `LexicalScopes.ParentsComeFirst` | rust_helpers/src/lexical.rs:30-56 | Whatever is entered and left, every scope record's parent is an earlier record. |
| `Risk.RoundMeaning` | src/util.rs:166-168 | Rounding gives hundredths, leaves hundredths alone, is odd, and moves nothing by more than half a hundredth. |
| `Risk.ScoreCaps` | src/risk_model.rs:63-305 | Change, correctness, architectural and quality scores are hundredths within 520, 470, 530 and 600. |
| `Risk.ChangeExact` | src/risk_model.rs:200-218 | What each signal of change costs and from where on more of it costs nothing. |
| `Risk.CorrectnessExact` | src/risk_model.rs:220-265 | The same for failures, unknowns, skips, runs, coverage and missing evidence: one failed test costs 185, two 230, more 260. |
| `Risk.ArchitectureExact` | src/risk_model.rs:267-293 | The same for dependencies, violations, cycles and size, with the entrypoint allowance of eight dependencies and two violations. |
| `Risk.MaintainabilityExact` | src/risk_model.rs:167-198 | The same for complexity, size and interface; dependencies both ways share one allowance of 35. |
| `Risk.NothingCut` | src/risk_model.rs:200-293 | The change and architecture caps equal the sums of their parts' caps, so they never cut anything off. |
| `Risk.CorrectnessCut` | src/risk_model.rs:220-265 | The correctness cap does cut: risks that sum to 650 score 470. |
| `Risk.CapsReached` | src/risk_model.rs:63-305 | All six caps are reached: 400, 520, 470, 530, 600 and, by the total, 2120. |
| `Risk.TotalIsExplained` | src/risk_model.rs:107-148 | The total is the exact sum of its explained components, and at most 2120. |
| `Risk.CorrectnessMonotone` | src/risk_model.rs:220-265 | More failures, unknowns or skips, fewer tests or less coverage never lower the score, not even where the first failed test turns the run-failure charge off. |
| `Risk.MaintainabilityMonotone` | src/risk_model.rs:171-198 | More outbound dependencies leave less room for inbound ones, yet never lower the score. |
| `Risk.ScoresMonotone` | src/risk_model.rs:63-305 | Nothing that makes a module riskier lowers any score. |
| `Risk.AllowanceNeverRaises` | src/risk_model.rs:64-73 | The entrypoint allowance never raises any score. |

## Left out

- JSON parsing and printing: documents are typed records holding the fields the code reads, except where the code
  itself walks or rewrites JSON (identities, practices); absent and null fields coincide in the typed records.
- Texts of error messages and reasons: only whether and where an error arises is modelled. The coverage error inside
  the policy confidence is one fixed text.
- Ordered lists that only report a set (partial and stale artifacts, limitations of the type index) are sets.
- JSON bodies of LSP messages are byte strings below the platform's size limit; parsing them is not part of this model.
- Header lines are trimmed of ASCII white space only, as are dependency paths.
- Diagnostics that are not JSON objects, which artifact validation refuses, stay as they are in the model of the projection.
- Reading and parsing dates: a waiver carries the day number of its expiry, if readable, and the policy the present day.
- Coverage, benchmark and score comparisons against a baseline enter the gate as deltas.
- `required_owner_unavailability` enters the gate as a flag of the document.
- Failure to remove the publication marker: a batch left that way is modelled as a crashed one.
- Publication.Batch.Publish: a rename is one atomic step and the re-reading of the staged file is not modelled, since nobody else writes there.
- The module key and id of a type row, the per-score component lists, layer violations, module containment edges, resolution counters and the metadata of modules: easy members.
- `ContextGraph` keeps the edge table as a sequence in key order, and the node table as a map, as the source's ordered maps iterate.
- TypeImpls.TypeImplIndex.Confidence: the lists it extends in the source's document are modelled by the values added to them.
- LexicalScopes.Scopes.Enter: a span is given by its line and column text, and names by their text.
- The rustc adapter, rust-analyzer process control, subprocesses, timeouts, directory walks, lock-file semantics of the
  operating system, schemas, SARIF, the command line and configuration defaults.
- Counters and lengths are unbounded, except the hash state and the length of a message.
- Hash collision resistance, floating-point error, and the published test vectors of the hash.
