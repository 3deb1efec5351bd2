# Verification of the review-control core

This project models the parts of the toolkit in which a mistake would change what a review
says, and proves what those parts promise, for all inputs, all runs and all reachable states.

- `Json`, `Placeholder`, `Rewrite`, `Sanitizer`, `RewriteLaws`, `SinkPaths`: the walk that
  redacts an untrusted result. The walk is imperative, over mutable nodes and an explicit stack;
  it refines a recursive rewrite of the JSON tree.
- `ResultContract`, `OutcomeLaws`, `Meaning`, `SanitisedResult`, `CollisionCases`: the coverage
  manifest, its partition and derived state, and exactly when redaction keeps what an accepted
  result means.
- `TraceProjector`, `TraceRecord`, `TraceContents`, `TraceSession`: the bounded scan of a chained
  native trace, and the selector that decides which fields of a record may be shown.
- `MarkdownLines`, `MarkdownFences`, `MarkdownBlocks`, `MarkdownSpans`, `MarkdownNeutral`,
  `MarkdownShapes`: the Markdown printer and neutralisers, against fenced blocks (section 4.5 of
  CommonMark 0.31.2) and code spans (section 6.1 of CommonMark 0.31.2).
- `Versions`, `Discovery`, `DiscoveryRules`, `Promotion`, `PromotionRules`, `QualificationRun`:
  from the upstream release listing through the matrix, the evidence chain and its assessment to
  the promoted support manifest.
- `Progress`, `ProgressRecords`, `ProgressProgram`: the two-threaded progress observer as a state
  machine of atomic steps.
- `Remote`, `ReleaseProtocol`, `ReleaseEffects`, `Issues`, `IssueEffects`: the release client and
  the qualification-issue upsert against a service whose answers may be lost.
- `ResultFile`, `ResultProgram`: the atomic replacement of the result file as steps on a directory
  and a disk.
- `EvidenceAccounting`, `EvidenceRules`, `RetryReport`, `RetryTable`, `Admission`, `RecordCosts`:
  usage and attribution, retry counters, and greedy admission.
- `Arguments`, `ArgumentTokens`: the scanners and rewriters of one argument vector.
- `Collections`, `PyText`: shared definitions.

The modules named after paths, laws, contents, records, effects, programs, rules, tables, costs,
tokens, shapes and sessions say from outside what an operation accepts, returns and leaves, in
written-out names and numbers, without the definitions of its model.

`dafny verify dfyconfig.toml` checks everything.

Where the source works step by step on objects, arrays of work or indices, so does the model:
classes with `modifies` clauses (`Sanitizer.Node`, `TraceProjector.ByteStream`,
`ReleaseProtocol.Server`, `Issues.Tracker`) and loops with invariants, each proved against a
function whose properties are proved as lemmas. The two protocols that interleave with other
actors (`Progress`, `ResultFile`) are state machines with one action per atomic step.

## What the proofs found

The code does not do the following. Each entry names the lemma with the exact condition and
the one with a concrete case.

- A `message` that is a list or an object is not protected like the other publication sinks:
  only a `message` that is a scalar is (`RewriteLaws.SinksUnchanged`,
  `RewriteLaws.StructuredMessageIsRewritten`).
- Redaction can change what an acceptable result means in two ways. A key or a word that the
  outcome is read from may itself be rejected: a dropped `status` reads as success, a dropped
  `summary` as a budget that was not exceeded. Or an id already equals the placeholder given
  to another id. Neither happens exactly under the condition of
  `SanitisedResult.WalkKeepsMeaning`, which assumes nothing about the admission check except
  that it is deterministic and is a function of payload and check
  (`SanitisedResult.UnreadStatusLosesTheWarning`,
  `SanitisedResult.UnreadSummaryHidesTheBudget`, `CollisionCases.CollisionLosesTheResult`).
  Placeholders are numbered in the order of the walk (a container's own strings, then its
  containers from last to first), so the place of an unrelated field decides whether two ids
  meet (`CollisionCases.ExtraFirstLosesTheResult`, `CollisionCases.ExtraLastKeepsTheResult`).
- The suggestion neutraliser drops a line ending other than CR and LF behind a rewritten
  fence, so that two lines become one (`MarkdownNeutral.NeutralizingKeepsFences`,
  `MarkdownNeutral.TabDocument`).
- A code span reads back changed when its value holds a line ending, which only unescaped
  values do, or is only whitespace with spaces outside and other whitespace inside
  (`MarkdownSpans.SpanRoundTrip`, `MarkdownSpans.LineEndingBecomesSpace`,
  `MarkdownSpans.NoBreakSpaceIsStripped`).
- The fence scanner closes on trailing whitespace that the grammar does not allow there
  (`MarkdownFences.FollowsGrammar`, `MarkdownFences.NoBreakSpaceCloses`).
- A trace of exactly 32,000,000 bytes counts as truncated unless it also has exactly 10,000
  records; this is part of `TraceProjector.WithinBounds`, which `TraceProjector.Project`
  decides (`TraceProjector.FullSourceIsTruncated`).
- Manifest validation alone is not kept by promotion (`Promotion.ValidityKeptExactly`,
  `Promotion.ValidationAloneIsNotKept`). `Promotion.PromotionKeepsHealth` gives an invariant
  that is.
- Release discovery can miss a release listed on a later page than one that reaches the floor,
  such as a backport (`Discovery.CompleteExactly`, `Discovery.BackportHidesARelease`).
- Discovery passes on a version that is listed in two spellings, and the matrix then refuses
  the run (`QualificationRun.PlanQualification`, `QualificationRun.TwoSpellingsAreRefused`).
- The result file is renamed over whatever its name leads to at that moment
  (`ResultFile.ReplacesExactly`, `ResultFile.SwapIsLostInARun`).
- A usage table with zero calls of the primary tool is produced but refused by the receipt
  validator (`EvidenceAccounting.UsageRefusedExactly`, `EvidenceAccounting.ZeroAloneIsRefused`).
- A draft that is the 501st release can no longer be found by its tag
  (`ReleaseProtocol.LostCreationIsFound`, `ReleaseProtocol.DraftBeyondTheListingIsLost`).

## Model

| member | source | states |
|---|---|---|
| `Sanitizer.Sanitize` | src/ocr_toolkit/review_runner.py:1134-1242 | the explicit-stack walk that fills mutable containers in place builds exactly the tree the recursive rewrite describes under the final replacement table; that table is a function of payload and check, the numbering in walk order (`Rewrite.LeftTable`); reason counts are exact and the field counter is the sum of the reasons plus the removed private keys |
| `Sanitizer.PopAndFill` | src/ocr_toolkit/review_runner.py:1153-1155 | one turn of the outer loop keeps recorded plus queued work equal to all work, and strictly shrinks the backlog, so the walk ends |
| `Sanitizer.Fill` | src/ocr_toolkit/review_runner.py:1155-1241 | processing every item of a popped container leaves it filled with what the rewrite keeps, in order, while other containers keep their state |
| `Sanitizer.Drop` | src/ocr_toolkit/review_runner.py:1159-1198 | a reserved or rejected key adds no entry and is counted once |
| `Sanitizer.Descend` | src/ocr_toolkit/review_runner.py:1199-1212 | a nested container is linked into its parent before it is filled, and queued once |
| `Sanitizer.CopyLeaf` | src/ocr_toolkit/review_runner.py:1213-1241 | a scalar entry is the rewrite of the source scalar under every later table |
| `Sanitizer.Project` | src/ocr_toolkit/review_runner.py:1213-1237 | a replaced string is in the table afterwards and earlier replacements never change |
| `Sanitizer.SetDefault` | src/ocr_toolkit/review_runner.py:1235-1237 | adding a string keeps the table numbered and all earlier entries |
| `Sanitizer.Node.Put` | src/ocr_toolkit/review_runner.py:1238-1241 | assignment to a fresh key, or an append, adds one entry at the end and changes nothing else |
| `Sanitizer.DenotesRewrite` | src/ocr_toolkit/review_runner.py:1134-1242 | a heap in which every container is filled denotes the recursive rewrite |
| `Rewrite.FirstUseDecides` | src/ocr_toolkit/review_runner.py:1235-1237 | a replaced string gets the placeholder numbered by the different strings met before its first use |
| `Rewrite.NumberingIsNumbered` | src/ocr_toolkit/review_runner.py:1145-1145 | the strings met, in any order, are numbered from one without gap or repetition |
| `Rewrite.PlaceholdersInjective` | src/ocr_toolkit/review_runner.py:1235-1237 | equal rejected strings share a placeholder, different ones never do |
| `Placeholder.LabelInjective` | src/ocr_toolkit/review_runner.py:1235-1237 | the zero-padded label is injective in its number, also past six digits |
| `Placeholder.ReadsBack` | src/ocr_toolkit/review_runner.py:1235-1237 | the decimal digits read back as the number |
| `Placeholder.LabelLength` | src/ocr_toolkit/review_runner.py:1235-1237 | up to twenty million replacements a label has 19 to 21 characters |
| `Placeholder.LabelIs` | src/ocr_toolkit/review_runner.py:1235-1237 | a label is the word, zeros up to six digits, and the number |
| `RewriteLaws.PathsArePreserved` | src/ocr_toolkit/review_runner.py:1153-1241 | under surviving keys every path leads to the rewritten value of what it led to before, otherwise to nothing |
| `RewriteLaws.ListsKeepLength` | src/ocr_toolkit/review_runner.py:1153-1241 | every list keeps its length and each item its position |
| `RewriteLaws.UnchangedExactly` | src/ocr_toolkit/review_runner.py:1134-1242 | the rewrite is the identity exactly on values in which nothing is dropped or replaced |
| `RewriteLaws.ClosedSinkUntouched` | src/ocr_toolkit/review_runner.py:1104-1121 | everything below a closed publication sink stays as it is |
| `RewriteLaws.SinksUnchanged` | src/ocr_toolkit/review_runner.py:1104-1121 | a value at a sink is unchanged wherever its ancestor keys survive, except that a structured message is unchanged exactly when nothing in it is dropped or replaced |
| `RewriteLaws.StructuredMessageIsRewritten` | src/ocr_toolkit/review_runner.py:1107-1108 | the exception occurs: a rejected string inside a list under the message key is replaced although the message itself is a sink |
| `SinkPaths.SinksAreThePublished` | src/ocr_toolkit/review_runner.py:1104-1121 | the path test holds exactly at four written-out places: the message, everything below warnings, twelve comment fields, and path and reason of failed items |
| `SinkPaths.ToolLabelsAreThePublic` | src/ocr_toolkit/review_runner.py:1124-1131 | and the key test exactly at twelve written-out tool names |
| `SinkPaths.LeftAt` | src/ocr_toolkit/review_runner.py:1153-1241 | at every path sanitising leaves nothing exactly when nothing was there or a written-out rule removes a key on the way, and the rewritten value otherwise |
| `SinkPaths.WarningsStay` | src/ocr_toolkit/review_runner.py:1107-1108 | every path below warnings leads to the same afterwards, for every payload, check and table |
| `SinkPaths.CommentFieldsStay` | src/ocr_toolkit/review_runner.py:1109-1115 | so does every path below one of twelve comment fields, exactly if the key comments is admitted |
| `SinkPaths.FailureTextsStay` | src/ocr_toolkit/review_runner.py:1116-1121 | and every path below path or reason of a failed item, exactly if the three keys above it are admitted |
| `SinkPaths.MessageStays` | src/ocr_toolkit/review_runner.py:1107-1108 | a scalar message is the same afterwards |
| `SinkPaths.ScalarAt` | src/ocr_toolkit/review_runner.py:1213-1241 | any other value, wherever it stands: gone with a removed key, replaced by its placeholder exactly when it is rejected text outside the four places, otherwise the same |
| `SinkPaths.RemovedKeys` | src/ocr_toolkit/review_runner.py:1159-1198 | nothing is left below a reserved key, or below a rejected key that is no public tool name, outside the four places |
| `RewriteLaws.TableBounded` | src/ocr_toolkit/review_runner.py:1145-1237 | the replacement table is smaller than the payload, for the keys a walk leaves behind |
| `RewriteLaws.WalkTextsExact` | src/ocr_toolkit/review_runner.py:1152-1237 | the walk meets exactly the texts that the recursive rewrite replaces, whatever the order |
| `RewriteLaws.LeftTableExact` | src/ocr_toolkit/review_runner.py:1145-1237 | so the table it leaves numbers exactly those |
| `ResultContract.CoverageIds` | src/ocr_toolkit/result_contract.py:121-153 | an array is accepted exactly when it is a bounded list of records with valid pairwise distinct ids; the answer is its id set and its records |
| `ResultContract.ValidateFailureRecords` | src/ocr_toolkit/result_contract.py:156-167 | accepted exactly when every record is classified; says whether one is a budget failure |
| `ResultContract.ReadTerminals` | src/ocr_toolkit/result_contract.py:199-206 | the four terminal arrays are accepted exactly when all are valid, with their ids and records |
| `ResultContract.JoinTerminals` | src/ocr_toolkit/result_contract.py:207-211 | the union of the terminal ids, refused exactly when two terminal states share one |
| `ResultContract.CheckManifest` | src/ocr_toolkit/result_contract.py:181-276 | the checks in their order accept exactly the manifests of the declarative contract and return their outcome |
| `ResultContract.CoverageConserved` | src/ocr_toolkit/result_contract.py:191-276 | every accepted manifest has selected = completed + reused + failed + waived, each the length of its array |
| `ResultContract.KindFromCounts` | src/ocr_toolkit/result_contract.py:225-254 | partial exactly when the run did not fail and 0 < failed < selected; likewise failed, clean and skipped; a budget flag only with partial or failed |
| `OutcomeLaws.LegacyAcceptance` | src/ocr_toolkit/result_contract.py:279-303 | a result without a manifest is accepted exactly for five statuses with the budget flag each implies, told from its fields |
| `OutcomeLaws.LegacyOutcome` | src/ocr_toolkit/result_contract.py:44-50 | partial exactly for completed_with_errors and budget_exceeded, warning, skipped and clean exactly for their statuses; no counts |
| `OutcomeLaws.ManifestAcceptance` | src/ocr_toolkit/result_contract.py:181-276 | a manifest is accepted exactly when its records say so: bounded arrays of pairwise distinct identities, every selected one in exactly one of four arrays, classes and waiver reasons, the state by the sizes of two arrays, a budget failure behind the flag |
| `OutcomeLaws.ManifestResultAcceptance` | src/ocr_toolkit/result_contract.py:279-291 | and a result with a manifest exactly when it agrees with the stated status and flag |
| `OutcomeLaws.ManifestOutcomeReports` | src/ocr_toolkit/result_contract.py:248-276 | what is then reported: status, flag, kind, the length of each array, and identity, path, class and reason of every failed record in order |
| `Meaning.SanitisingKeepsMeaning` | src/ocr_toolkit/result_contract.py:279-303 | under any admission check and any table as the walk numbers it, an accepted result means the same afterwards (status, kind, budget flag, counts, failed items up to the renaming) exactly when every key and word it is read from is still there and the renaming keeps the selected ids apart |
| `SanitisedResult.WalkKeepsMeaning` | src/ocr_toolkit/review_runner.py:1134-1242 | under the numbering in walk order, both halves of the condition are functions of payload and check: the keys and words the outcome is read from are admitted, and the renaming keeps the ids apart; a payload has at most as many values as the result file may have bytes |
| `SanitisedResult.SanitiseResult` | src/ocr_toolkit/review_runner.py:1134-1242 | the same of the heap the walk built: what it denotes parses to the same outcome up to renaming exactly under that condition, and the returned table is that numbering |
| `SanitisedResult.UnreadStatusLosesTheWarning` | src/ocr_toolkit/review_runner.py:1177-1198 | a rejected status key makes a clean result of one with warnings; no id is involved |
| `SanitisedResult.UnreadSummaryHidesTheBudget` | src/ocr_toolkit/result_contract.py:107-118 | a rejected summary key always reads as a budget that was not exceeded |
| `RewriteLaws.WalkReplaces` | src/ocr_toolkit/review_runner.py:1213-1237 | rejected text is in the walk's table wherever surviving keys lead to it outside the sinks |
| `RewriteLaws.ReplacedIsRejected` | src/ocr_toolkit/review_runner.py:1213-1237 | and only rejected text is |
| `Meaning.StatusRead` | src/ocr_toolkit/result_contract.py:279-290 | the status is the same afterwards exactly when it is absent, read and not replaced, or the dropped default |
| `Meaning.BudgetRead` | src/ocr_toolkit/result_contract.py:107-118 | the budget flag is the same exactly when it was not set or both its keys are read |
| `Meaning.RefusedOrKept` | src/ocr_toolkit/result_contract.py:279-303 | with status, budget flag and manifest key read, a sanitised result is refused or means the same |
| `Meaning.ManifestMeaningKept` | src/ocr_toolkit/result_contract.py:181-276 | an accepted manifest stays accepted exactly when header, coverage, ids, failure classes, waivers and run failure are readable and the ids stay apart; a dropped run failure does no harm exactly when the failed items alone give its state |
| `Meaning.ApartMeansNoCollision` | src/ocr_toolkit/review_runner.py:1235-1237 | ids stay apart exactly when no kept id equals the placeholder of a replaced one |
| `Meaning.NoLookalikesKeepMeaning` | src/ocr_toolkit/result_contract.py:181-303 | so a readable result keeps its meaning whenever no selected id looks like a placeholder |
| `CollisionCases.CollisionLosesTheResult` | src/ocr_toolkit/result_contract.py:147-153 | ids that come together lose the result: under the table the walk itself leaves, a result whose second id is the placeholder of its rejected first one is accepted before and refused after |
| `CollisionCases.ExtraFirstLosesTheResult` | src/ocr_toolkit/review_runner.py:1152-1155 | with another rejected string in a field in front, which the walk takes up last, it is still lost |
| `CollisionCases.ExtraLastKeepsTheResult` | src/ocr_toolkit/review_runner.py:1152-1155 | with the same field at the end, which the walk takes up first, the other string gets the placeholder and the result keeps its meaning |
| `CollisionCases.TablesLeft` | src/ocr_toolkit/review_runner.py:1235-1237 | the tables of the three walks |
| `CollisionCases.VocabularyIsEnough` | src/ocr_toolkit/result_contract.py:279-303 | a check that admits the keys and words of the contract leaves every acceptable result readable, so that only ids can be lost |
| `Meaning.ExplanationsKept` | src/ocr_toolkit/result_contract.py:156-178 | failure classes and waivers survive exactly when their keys are read and no class is replaced; then the failed items are the same up to renaming, with paths and reasons unchanged |
| `TraceProjector.Project` | src/ocr_toolkit/review_trace.py:280-375 | over every byte stream a capture passes exactly when the stream is one complete trace; an error or a degraded capture means it is not; content is always the projection of the processed records in order, retained <= observed <= 10,000, and output stays within its bound |
| `TraceProjector.CompleteTraceMeans` | src/ocr_toolkit/review_trace.py:280-375 | a complete trace was read to its last byte, one record per line, all projected in order; uuids are pairwise distinct, each parent is the previous uuid, the session starts once, first, and ends once, last |
| `TraceSession.ChainedExactly` | src/ocr_toolkit/review_trace.py:311-341 | the chain contract of the loop is that the records are one session: opened once, on this range and repository, ended at the end, identities that are UUIDs and pairwise distinct, each record naming the one before it |
| `TraceSession.PassedCaptureShows` | src/ocr_toolkit/review_trace.py:280-374 | end to end: the stream behind a passed capture is one closed session within its limits, and each line of the content is the encoding of what its record shows |
| `TraceProjector.ReadRecords` | src/ocr_toolkit/review_trace.py:287-360 | the scanning loop with all its exits, against the same verdict |
| `TraceProjector.Absorb` | src/ocr_toolkit/review_trace.py:300-354 | one line either extends the chain, stops the scan, or shows that no continuation can be complete |
| `TraceProjector.ReadNext` | src/ocr_toolkit/review_trace.py:288-299 | a line read under the record and source limits is the next line of the stream; an oversized one rules a complete trace out |
| `TraceProjector.ByteStream.ReadLine` | src/ocr_toolkit/review_trace.py:292-292 | the rest of the current line cut at the limit, and the position moves by what was read |
| `TraceRecord.SelectorSeesOnlyShown` | src/ocr_toolkit/review_trace.py:131-206 | confinement: the selector answers alike for a record and for what a per-kind allow list shows of it, at every depth |
| `TraceRecord.HiddenFieldsNeverMatter` | src/ocr_toolkit/review_trace.py:131-206 | records that show the same are projected alike, whatever else they hold |
| `TraceRecord.ReadCalls` | src/ocr_toolkit/review_trace.py:73-101 | the call loop returns the image of every call, or fails when one is invalid or there are too many |
| `TraceRecord.ReadMessages` | src/ocr_toolkit/review_trace.py:104-128 | the message loop, likewise |
| `TraceContents.CallShows` | src/ocr_toolkit/review_trace.py:73-101 | a call is taken exactly if its identity, function name and arguments are texts where its form has them, and shows each of them under its own name and nothing else |
| `TraceContents.MessageShows` | src/ocr_toolkit/review_trace.py:104-128 | likewise for role, content, tool_call_id and calls of a message |
| `TraceContents.RecordAcceptance` | src/ocr_toolkit/review_trace.py:131-206 | a record passes the selector exactly if it has what its kind must have, and is selected exactly if its kind is one of nine |
| `TraceContents.RecordShows` | src/ocr_toolkit/review_trace.py:131-206 | a selected record holds its identity and the fields of its kind, each copied from the native field of the same name, its messages and calls, and no other key |
| `TraceRecord.NestedCallSees` | src/ocr_toolkit/review_trace.py:81-100 | a call inside a message shows only its id, type, function name and arguments |
| `TraceProjector.CaptureIsConfined` | src/ocr_toolkit/review_trace.py:336-354 | two passed captures of streams whose records show the same, line by line, hold the same bytes, whatever else the records contain and whichever runs they belong to |
| `TraceProjector.SelectionIsConfined` | src/ocr_toolkit/review_trace.py:336-354 | record sequences that show the same are projected to the same lines |
| `TraceProjector.FullSourceIsTruncated` | src/ocr_toolkit/review_trace.py:287-291 | of two streams of exactly 32,000,000 bytes the one with 8 lines is out of bounds and the one with 10,000 lines within them |
| `MarkdownFences.MatchFenceExact` | src/ocr_toolkit/common/markdown.py:9-20 | the fence pattern finds exactly the one code fence of a line |
| `MarkdownFences.FollowsGrammar` | src/ocr_toolkit/common/markdown.py:12-31 | the transition opens and closes as section 4.5 of CommonMark 0.31.2 says, except that it also closes on trailing whitespace that is neither a space nor a tab |
| `MarkdownFences.NoBreakSpaceCloses` | src/ocr_toolkit/common/markdown.py:29-31 | the exception occurs: three backticks and a no-break space close a block the grammar leaves open |
| `MarkdownFences.OpenMarkdownFence` | src/ocr_toolkit/common/markdown.py:34-40 | the loop computes the state after the last line |
| `MarkdownBlocks.ComputeMaxBacktickRun` | src/ocr_toolkit/common/markdown.py:66-79 | the counting loop computes the longest run |
| `MarkdownBlocks.MaxRunExact` | src/ocr_toolkit/common/markdown.py:66-79 | a run of k backticks occurs exactly when k is at most that number |
| `MarkdownBlocks.FencedBlockContains` | src/ocr_toolkit/common/markdown.py:105-121 | for every content the scanner opens on the first line, stays open on every content line and closes on the last line only; the lines between are the content's own |
| `MarkdownBlocks.CodeBlockContains` | src/ocr_toolkit/common/markdown.py:105-121 | the same for every language text, content and escape setting of the public function |
| `MarkdownSpans.SpanRoundTrip` | src/ocr_toolkit/common/markdown.py:159-182 | reading a span by section 6.1 of CommonMark 0.31.2, line endings first, gives a non-empty value back exactly when it is on one line and not all whitespace between spaces with some other whitespace; it gives the value with line endings as spaces exactly when the span is padded or nothing can be stripped |
| `MarkdownSpans.LineEndingBecomesSpace` | src/ocr_toolkit/common/markdown.py:159-182 | a line feed between two letters reads back as a space |
| `MarkdownSpans.PlainSpacesRoundTrip` | src/ocr_toolkit/common/markdown.py:159-182 | in particular for every non-empty value whose only whitespace is U+0020 |
| `MarkdownSpans.NoBreakSpaceIsStripped` | src/ocr_toolkit/common/markdown.py:176-182 | the exception occurs: a no-break space between two spaces reads back without the spaces |
| `MarkdownSpans.InlineCodeRoundTrip` | src/ocr_toolkit/common/markdown.py:159-182 | an escaped value stays on one line, so it reads back with the exception of whitespace only |
| `MarkdownNeutral.NeutralizeSuggestionFences` | src/ocr_toolkit/common/markdown.py:43-63 | the loop over raw lines computes the line-by-line rewrite |
| `MarkdownNeutral.NoSuggestionRemains` | src/ocr_toolkit/common/markdown.py:43-63 | afterwards no line of any document is a backtick fence whose info string starts with suggestion |
| `MarkdownNeutral.NeutralizingTwice` | src/ocr_toolkit/common/markdown.py:43-63 | idempotent on every document |
| `MarkdownNeutral.NeutralizingKeepsFences` | src/ocr_toolkit/common/markdown.py:43-63 | the fence state after every line is kept, and the number of lines, exactly when no rewritten fence loses an exotic line ending |
| `MarkdownNeutral.LostBreakMovesFence` | src/ocr_toolkit/common/markdown.py:46-62 | when one is lost and the next line holds a backtick, the document's open fence is lost |
| `MarkdownNeutral.TabDocument` | src/ocr_toolkit/common/markdown.py:46-62 | such a document: a suggestion fence that ends with a vertical tab |
| `MarkdownNeutral.NeutralizeQuickActions` | src/ocr_toolkit/common/markdown.py:185-214 | the loop with its fence tracking computes the line-by-line rewrite |
| `MarkdownNeutral.QuietingKeepsFences` | src/ocr_toolkit/common/markdown.py:185-214 | for every document the lines, their endings and the fence state after each are kept and no line starts with a slash any more |
| `MarkdownNeutral.QuietingTwice` | src/ocr_toolkit/common/markdown.py:185-214 | idempotent on every document |
| `MarkdownShapes.SuggestionsExactly` | src/ocr_toolkit/common/markdown.py:43-63 | a line changes exactly if it is a backtick fence of at most three spaces whose info string starts with the word in any case, and then becomes the same fence with the word text |
| `MarkdownShapes.SlashesExactly` | src/ocr_toolkit/common/markdown.py:185-213 | a line changes exactly if its first visible character is a slash, and then has a backslash in front of it |
| `MarkdownShapes.ControlsEscaped` | src/ocr_toolkit/common/markdown.py:124-156 | inline escapes by character: three named ones, codes of two, four or eight digits that read back as the code point, everything else as it is |
| `MarkdownShapes.BlockEscaped` | src/ocr_toolkit/common/markdown.py:82-102 | the same in code blocks, where line feeds and tabs stay |
| `MarkdownShapes.EscapesJoin` | src/ocr_toolkit/common/markdown.py:82-156 | texts are escaped piece by piece |
| `MarkdownShapes.LanguageExactly` | src/ocr_toolkit/common/markdown.py:111-113 | the language of a block is the given one without surrounding whitespace if that is 1 to 40 plain characters, and none otherwise |
| `MarkdownLines.SplitIsWell` | src/ocr_toolkit/common/markdown.py:46-46 | splitting into lines with endings and joining again gives the text back |
| `MarkdownLines.BreaksAre` | src/ocr_toolkit/common/markdown.py:38-38 | the ten characters that end a line |
| `PyText.SpacesAre` | src/ocr_toolkit/common/markdown.py:29-29 | the 29 characters that count as whitespace |
| `Versions.SortRestores` | scripts/ocr_qualification/assets.py:138-140 | sorting any arrangement of strictly ascending versions restores it |
| `Versions.SortSplits` | scripts/ocr_qualification/promotion.py:317-321 | sorting is stable: only strictly greater entries come to stand behind the last one |
| `Versions.TransitionAscends` | scripts/ocr_qualification/core.py:61-72 | every accepted transition leads strictly upwards |
| `Discovery.DiscoverUnseen` | scripts/ocr_qualification/assets.py:74-123 | the paging loop succeeds exactly when the ceiling is valid and found and the floor or the end of the listing is reached, and returns the wanted releases of the pages it read, sorted |
| `Discovery.CompleteExactly` | scripts/ocr_qualification/assets.py:92-118 | a discovery that reached the floor or the end returns every wanted release exactly when none is listed on a later page than a release at or below the floor |
| `Discovery.BackportHidesARelease` | scripts/ocr_qualification/assets.py:92-118 | a listing on which it does not: a backport listed first ends discovery before the second page, which holds a new release |
| `Discovery.DescendingIsComplete` | scripts/ocr_qualification/assets.py:92-118 | a listing that never goes back up in version is always read completely |
| `DiscoveryRules.ReachExactly` | scripts/ocr_qualification/assets.py:92-116 | one to four pages of fifty are looked at, ending with the first that is not full or reaches the floor |
| `DiscoveryRules.ReturnedExactly` | scripts/ocr_qualification/assets.py:100-113 | of these exactly the published stable releases above the floor, not in the manifest and not above the ceiling are returned |
| `DiscoveryRules.SucceedsExactly` | scripts/ocr_qualification/assets.py:79-123 | when it succeeds, told from the ask and the listing |
| `Promotion.QualifiedRuntimeVersions` | scripts/ocr_qualification/contracts.py:203-232 | the loop returns the tested versions of the supported and of the deprecated-only lines, sorted |
| `Promotion.ValidateManifest` | scripts/ocr_qualification/contracts.py:235-356 | the release loop accepts exactly the manifests of the declarative contract |
| `Promotion.SupportedAboveDeprecated` | scripts/ocr_qualification/contracts.py:189-232 | in a valid manifest every deprecated version lies strictly below every supported one, so the lists are disjoint |
| `PromotionRules.WindowDecides` | scripts/ocr_qualification/contracts.py:189-200 | the window version by version: the recommended line and the one before it are supported, the one before that deprecated, everything older and nothing else rejected |
| `PromotionRules.WindowExactly` | scripts/ocr_qualification/contracts.py:192-194 | there is a window exactly from the third minor line on |
| `PromotionRules.ListedByLine` | scripts/ocr_qualification/contracts.py:203-232 | in a valid manifest a tested version is listed by its line alone, and what is listed is never rejected |
| `PromotionRules.StepsExactly` | scripts/ocr_qualification/core.py:61-72 | the three allowed steps, by the numbers they lead to |
| `PromotionRules.SafeExactly` | scripts/ocr_qualification/promotion.py:15-33 | a candidate is safe exactly when it is the next patch, its contracts passed and its notes say maintenance only |
| `Promotion.QualificationMatrix` | scripts/ocr_qualification/assets.py:126-157 | succeeds exactly for at most ten valid tags with distinct bare versions; each entry is compared with the one before it |
| `QualificationRun.PlanQualification` | scripts/ocr_qualification/cli.py:100-113 | discovery and matrix one after the other succeed exactly when discovery does and its releases are at most ten with distinct bare versions |
| `QualificationRun.DiscoveredIsMatrixInput` | scripts/ocr_qualification/assets.py:138-140 | sorted discoveries are in matrix order already, and distinct spellings survive sorting in both directions |
| `QualificationRun.TwoSpellingsAreRefused` | scripts/ocr_qualification/assets.py:138-147 | a listing with one version in two spellings passes discovery and is refused by the matrix |
| `Promotion.AssessAutomaticChain` | scripts/ocr_qualification/promotion.py:92-133 | accepts exactly the observed chains; automatic exactly when every step is a patch and every candidate safe |
| `Promotion.MatrixEvidenceIsObserved` | scripts/ocr_qualification/assets.py:126-157 | composition: compatible evidence for the entries of a matrix, gathered in any order, passes the chain contract of the assessment |
| `Promotion.PatchesCountUp` | scripts/ocr_qualification/promotion.py:104-112 | a contiguous chain's i-th version is the baseline's major and minor with patch + i |
| `Promotion.SafeChainsAreContiguous` | scripts/ocr_qualification/promotion.py:15-33 | evidence classified safe against its comparison version leaves no gap, so the verdict is the conjunction of the classifications |
| `Promotion.PrepareUpdate` | scripts/ocr_qualification/promotion.py:151-324 | succeeds exactly for promotable chains, and then returns the manifest with the new releases sorted in and recommendation, floor and policy moved |
| `Promotion.CheckChain` | scripts/ocr_qualification/promotion.py:174-226 | the walk along the sorted chain accepts exactly the chains every step of which is admissible |
| `Promotion.AutomaticChainsArePromotable` | scripts/ocr_qualification/promotion.py:174-235 | a chain judged automatic against the manifest's recommendation is promotable without conclusions when its evidence is current and its versions are new |
| `Promotion.PromotionKeepsHealth` | scripts/ocr_qualification/promotion.py:163-324 | every promotion keeps the invariant: valid, sorted, distinct, all tested releases at most the recommendation; the floor equals the recommendation, which moves up; no release is lost |
| `Promotion.HistoriesStayHealthy` | scripts/ocr_qualification/promotion.py:163-324 | so does every history of promotions |
| `Promotion.ValidityKeptExactly` | scripts/ocr_qualification/promotion.py:163-324 | a promotion keeps a manifest valid exactly when no release tested before is above the new recommendation on a supported line of its window |
| `Promotion.ValidationAloneIsNotKept` | scripts/ocr_qualification/contracts.py:235-254 | validation alone is not inductive: a valid manifest on which an accepted promotion fails that condition and becomes invalid |
| `Promotion.NewTopIsLast` | scripts/ocr_qualification/contracts.py:230-232 | sorting is stable, so the new recommendation is listed last also behind an equal version in another spelling |
| `PromotionRules.PromotionEffect` | scripts/ocr_qualification/promotion.py:245-321 | recommendation, floor and window move to the last candidate, every candidate is added as tested, and no other release is added, lost or changed |
| `PromotionRules.CandidatesQualify` | scripts/ocr_qualification/promotion.py:168-240 | what every candidate of an accepted promotion was: current schema and valid contracts, new, compatible, one step above the one before it, with a conclusion unless it was a safe patch |
| `PromotionRules.HealthExactly` | scripts/ocr_qualification/promotion.py:245-324 | the invariant release by release: the recommendation is the one greatest tested version, tested numbers are distinct, the inventory is in order |
| `PromotionRules.OneReleaseIsHealthy` | scripts/ocr_qualification/contracts.py:189-200 | manifests with the invariant exist for every version with a window |
| `Promotion.AheadBreaks` | scripts/ocr_qualification/contracts.py:252-254 | a supported version above the recommendation is never valid |
| `Progress.RunKeeps` | src/ocr_toolkit/review_progress.py:26-126 | the invariant of lock, stop flag, counter, stream and descriptor holds in every state of every interleaving of two threads with arbitrary write outcomes |
| `Progress.StreamIsBounded` | src/ocr_toolkit/review_progress.py:75-102 | at most 120 complete records, then at most one broken one; each says the stage current at its writing, which is a toolkit stage; no closed descriptor is written to |
| `ProgressRecords.StreamIsSaid` | src/ocr_toolkit/review_progress.py:75-111 | in every run the stream is a function of the actions: a main line names the phase of the last call of start or phase, a heartbeat line the phase that was asked for when the stage was last set, a short write leaves its part, and no other action writes |
| `ProgressRecords.StopsExactly` | src/ocr_toolkit/review_progress.py:81-124 | the stop flag is set by exactly four steps: a failed emission, the account of the 120th record, a failed start of the thread, and close |
| `ProgressRecords.PhasesAreKnown` | src/ocr_toolkit/review_progress.py:104-108 | only the eleven phases of the toolkit are named |
| `ProgressProgram.MainFollowsProgram` | src/ocr_toolkit/review_progress.py:40-124 | in every interleaving two successive steps of the main thread follow its program: no call is dropped, no step is left out or repeated |
| `ProgressProgram.HeartbeatFollowsProgram` | src/ocr_toolkit/review_progress.py:113-115 | and so do two successive steps of the heartbeat |
| `ProgressProgram.MainCanGoOn` | src/ocr_toolkit/review_progress.py:40-124 | the main thread is never stuck, except that it waits for the lock and, in close, for the heartbeat |
| `ProgressProgram.HeartbeatCanGoOn` | src/ocr_toolkit/review_progress.py:113-115 | the heartbeat is never stuck, except that it waits for the lock |
| `Progress.LinesAreRecords` | src/ocr_toolkit/review_progress.py:75-102 | the lines of the stream are the complete records |
| `Progress.StepMonotone` | src/ocr_toolkit/review_progress.py:26-126 | stop is never cleared and nothing written is taken back |
| `Progress.SilentAfterClose` | src/ocr_toolkit/review_progress.py:117-126 | once close has returned nothing is written or opened any more, and the heartbeat does not move |
| `Progress.CloseCanFinish` | src/ocr_toolkit/review_progress.py:113-122 | while close waits, the heartbeat always has a step that brings it closer to its end |
| `Progress.HeartbeatDrains` | src/ocr_toolkit/review_progress.py:113-122 | and none of its steps leads away from it |
| `ReleaseProtocol.Server.List` | scripts/github_release_api.py:286-308 | the paging loop returns the whole listing, or fails exactly when it holds more than 500 releases |
| `ReleaseProtocol.Server.EnsureRelease` | scripts/github_release_api.py:261-351 | finds or creates; its whole effect and answer for every world and every lost or refused request |
| `ReleaseProtocol.Server.UploadAsset` | scripts/github_release_api.py:374-430 | the same for uploads |
| `ReleaseProtocol.Server.PublishRelease` | scripts/github_release_api.py:433-480 | the same for publication |
| `ReleaseEffects.EnsureEffect` | scripts/github_release_api.py:261-351 | a successful ensure returns a release that agrees field by field and is on the server; nothing has changed, or no release carried the tag and one draft without assets was added |
| `ReleaseEffects.EnsureSucceedsExactly` | scripts/github_release_api.py:261-351 | in clear weather it succeeds exactly for a well-formed request whose tagged release, if any, agrees, when the listing fits 500 or the release is published |
| `ReleaseEffects.UploadEffect` | scripts/github_release_api.py:374-430 | a successful upload adds exactly this asset to the end of the named draft |
| `ReleaseEffects.UploadSucceedsExactly` | scripts/github_release_api.py:374-430 | and succeeds exactly for a draft without an asset of that well-formed name and a file of 1 to 10,485,760 bytes |
| `ReleaseEffects.PublishEffect` | scripts/github_release_api.py:433-480 | a successful publication clears the draft flag of the named release, which holds exactly the expected assets, and changes nothing else |
| `ReleaseEffects.PublishSucceedsExactly` | scripts/github_release_api.py:433-480 | and succeeds exactly for distinct well-formed names that the named release holds |
| `ReleaseEffects.ChangesAreAnswered` | scripts/github_release_api.py:261-480 | an operation that changes anything is answered, unless its answer is lost |
| `ReleaseEffects.TagExactly` | scripts/github_release_api.py:25-25 | the tag pattern: a v and two or more numerals with dots between |
| `ReleaseEffects.NameExactly` | scripts/github_release_api.py:27-27 | the asset name pattern, by its alphabet |
| `ReleaseEffects.ValidExactly` | scripts/github_release_api.py:189-234 | a release is valid exactly when it agrees field by field with a well-formed request |
| `ReleaseProtocol.RunsKeep` | scripts/github_release_api.py:261-480 | over every run, with lost answers, at most one release carries a tag, its asset names stay unique, no release changes identity, and nothing is added to a published one |
| `ReleaseProtocol.PublicationIsComplete` | scripts/github_release_api.py:443-480 | a successful publication leaves the release published with exactly the expected asset names |
| `ReleaseProtocol.PublicationIsFinal` | scripts/github_release_api.py:462-463 | after any later run the published record is the same, and publishing again returns it and changes nothing |
| `ReleaseProtocol.EnsureIsStable` | scripts/github_release_api.py:261-351 | two successful ensures of one tag, with any run between them, return one id |
| `ReleaseProtocol.LostCreationIsFound` | scripts/github_release_api.py:286-351 | a draft whose creation went unanswered is found again exactly while the listing fits its pages |
| `ReleaseProtocol.DraftBeyondTheListingIsLost` | scripts/github_release_api.py:286-351 | after 500 other releases it is not |
| `Issues.Tracker.Find` | scripts/ocr_qualification/delivery.py:222-271 | the paging loop collects exactly the canonical issue numbers of a marker, and fails from 1,000 issues on or on two numbers |
| `Issues.Tracker.Upsert` | scripts/ocr_qualification/delivery.py:274-326 | finds or creates; its whole effect and answer |
| `IssueEffects.UpsertEffect` | scripts/ocr_qualification/delivery.py:274-326 | after an answered upsert the issue with the returned number is open and carries title and body as asked; its author and labels are as before; every other issue is untouched |
| `IssueEffects.CreationEffect` | scripts/ocr_qualification/delivery.py:307-313 | a new issue comes last, is the requester's, is open, has one label and carries what was asked for |
| `IssueEffects.AnswersTheOne` | scripts/ocr_qualification/delivery.py:299-326 | the answer is the issue that stands for the version, if there is one, and the next number otherwise |
| `IssueEffects.AnsweredExactly` | scripts/ocr_qualification/delivery.py:222-326 | in clear weather an upsert is answered exactly for a version, a listing under 1,000 issues, and at most one number that stands for the version |
| `IssueEffects.FailureEffect` | scripts/ocr_qualification/delivery.py:307-326 | a failed upsert has changed nothing, or its answer was lost and it has done what an answered one does |
| `IssueEffects.StandsExactly` | scripts/ocr_qualification/delivery.py:205-262 | which issues stand for a version: no pull requests, the header as whole first line, a trusted author, not closed as a duplicate |
| `IssueEffects.VersionTextExactly` | scripts/ocr_qualification/settings.py:91-91 | the version texts are exactly the spellings of three numbers, with or without a v |
| `Issues.BodyHeader` | scripts/ocr_qualification/delivery.py:236-242 | the first line of a rendered body is exactly its version's marker, whatever follows |
| `Issues.MarkerInjective` | scripts/ocr_qualification/delivery.py:297-297 | markers of different version texts differ |
| `Issues.RunsKeep` | scripts/ocr_qualification/delivery.py:222-326 | over every run with other people's issues and closings in between, at most one canonical issue per version, and it is never replaced |
| `Issues.UpsertIsStable` | scripts/ocr_qualification/delivery.py:274-326 | two answered upserts of one version return the same number |
| `Issues.RepeatFindsExactlyOwned` | scripts/ocr_qualification/delivery.py:205-219 | repeating a creating upsert finds its issue exactly when the lookup trusts the author |
| `Issues.StrangersAreNeverCanonical` | scripts/ocr_qualification/delivery.py:205-219 | issues of other authors never stand for a version |
| `ResultFile.RunKeeps` | src/ocr_toolkit/ocr_result.py:434-502 | the invariant of process, directory and disk holds after every step, with short writes, crashes, write-back at any moment and another process at work |
| `ResultFile.NeverAPrefix` | src/ocr_toolkit/ocr_result.py:256-267 | without another process, what survives a stop at any step is the original bytes or the complete encoded transformation |
| `ResultFile.AlwaysBound` | src/ocr_toolkit/ocr_result.py:434-502 | and the result name is always bound; a finished run has produced the transformation of the original |
| `ResultProgram.FollowsProgram` | src/ocr_toolkit/ocr_result.py:434-502 | in every run, whatever the kernel and others do in between, two successive steps of the process follow its program, and nothing follows a failure or a crash |
| `ResultProgram.CanGoOn` | src/ocr_toolkit/ocr_result.py:434-502 | it can always take its next step until it has finished, failed or been killed |
| `ResultProgram.OpenedAndChecked` | src/ocr_toolkit/ocr_result.py:208-282 | it opens, and later replaces, exactly a regular file that the result name and no other name is bound to |
| `ResultProgram.LimitsAreKept` | src/ocr_toolkit/ocr_result.py:227-300 | a result over the limit is not read, a transformation over it not written, and 128 names are tried |
| `ResultProgram.EndsTidy` | src/ocr_toolkit/ocr_result.py:467-502 | in every run without others a finished replacement is bound and durable, and no temporary name is left behind, also after a failure |
| `ResultProgram.OthersMay` | src/ocr_toolkit/ocr_result.py:270-282 | others may swap, remove, overwrite and link, but never reach the private temporary |
| `ResultFile.OwnFileIsComplete` | src/ocr_toolkit/ocr_result.py:467-486 | with another process, the file this one put in place is still complete and made from the bytes it read |
| `ResultFile.ReplacesWhatItRead` | src/ocr_toolkit/ocr_result.py:270-282 | in every run the file renamed over is the one that was read if no swap and no removal came between a check and the rename, whatever else was done |
| `ResultFile.GapLosesASwap` | src/ocr_toolkit/ocr_result.py:478-486 | from any state between the two, a file swapped in is replaced unread |
| `ResultFile.SwapIsLostInARun` | src/ocr_toolkit/ocr_result.py:434-502 | a complete run from the start does so |
| `EvidenceAccounting.Aggregate` | src/ocr_toolkit/review_runner.py:675-694 | the usage loop refuses exactly a bad count or a server over the bound; otherwise its table holds each called server's calls and adds up to the known calls |
| `EvidenceAccounting.CheckedUsage` | src/ocr_toolkit/review_runner.py:695-702 | the usage is accepted exactly when, besides, the reported total covers the known calls and is within its bound |
| `EvidenceAccounting.SumValues` | src/ocr_toolkit/review_runner.py:695-695 | the sum over the table does not depend on its order |
| `EvidenceAccounting.AttributionIsConserved` | src/ocr_toolkit/review_receipt.py:86-144 | attempted buckets add up to exactly the evidence calls, and the hostile validator accepts the result exactly when its residual bucket fits |
| `EvidenceAccounting.OnlyTheResidualGrows` | src/ocr_toolkit/review_receipt.py:133-144 | calls that never arrived only add to the unattributed bucket |
| `EvidenceAccounting.UsageByTool` | src/ocr_toolkit/review_runner.py:670-694 | a server's usage is the sum over its own tools when each tool is reported once |
| `EvidenceAccounting.ReceiptAgrees` | src/ocr_toolkit/review_receipt.py:582-587 | whenever loop and attribution succeed, the built-in server's usage is evidence, context and diagram calls together and the attribution validates; the bound on the calls is derived, and mandatory evidence shows as used |
| `EvidenceAccounting.UsageRefusedExactly` | src/ocr_toolkit/review_receipt.py:520-528 | the producer's own validator refuses its usage exactly when the primary tool is reported with zero calls and no other tool of its server was called |
| `EvidenceAccounting.ZeroAloneIsRefused` | src/ocr_toolkit/review_receipt.py:520-528 | such a usage |
| `EvidenceRules.AttributedExactly` | src/ocr_toolkit/review_receipt.py:86-132 | an attribution is given exactly for counts that agree with themselves and with the calls, with a completed summary if evidence is mandatory |
| `EvidenceRules.AttributionSays` | src/ocr_toolkit/review_receipt.py:133-144 | it holds every attempt and completion as counted, and every other call as unattributed |
| `EvidenceRules.BuiltinToolsAre` | src/ocr_toolkit/review_receipt.py:479-491 | the tools of the built-in server, mode by mode |
| `RetryReport.ReadRequest` | src/ocr_toolkit/provider_failure.py:233-265 | the attempt loop accepts exactly the requests whose outcome fits their attempts |
| `RetryReport.ParseProjection` | src/ocr_toolkit/provider_failure.py:268-346 | accepts exactly consistent reports; the projection counts the terminal failures |
| `RetryReport.ReportIsConserved` | src/ocr_toolkit/provider_failure.py:282-346 | detail counts add up to failed + cancelled; no projection exactly when that is 0; retries + requests = attempts; requests <= retried + failed + cancelled; recovered <= retried |
| `RetryReport.MixedExactly` | src/ocr_toolkit/provider_failure.py:332-333 | the reason is mixed exactly when two terminal reasons differ |
| `RetryReport.StatusFixesFailure` | src/ocr_toolkit/provider_failure.py:158-207 | one HTTP status always gives one reason, and one failure unless it is a success status |
| `RetryTable.AttemptExactly` | src/ocr_toolkit/provider_failure.py:112-230 | an attempt is read exactly as a table of statuses, classes and phases says, and refused exactly when no row fits |
| `RetryTable.ReportExactly` | src/ocr_toolkit/provider_failure.py:268-322 | a report is accepted exactly when its counters are the numbers of requests that were repeated, recovered, failed and cancelled and of attempts beyond the first; the upper bounds follow |
| `Admission.BoundedCombinedRecords` | src/ocr_toolkit/review_runner.py:2923-2976 | the loop admits the records at the greedy places, in order, and limits exactly the sources of the others |
| `Admission.NestedTexts` | src/ocr_toolkit/review_runner.py:2949-2959 | the stack walk adds exactly the texts of a nested outcome, each as often as it occurs, and their cost |
| `RecordCosts.RecordCostExactly` | src/ocr_toolkit/review_runner.py:2936-2962 | a record costs what its texts measure: the model text, root and replies of the thread and every text of the outcome, each once, in characters, UTF-8 bytes and lines |
| `Admission.WithinBudgets` | src/ocr_toolkit/review_runner.py:2963-2975 | the selection stays within all four budgets |
| `Admission.AdmissionIsMaximal` | src/ocr_toolkit/review_runner.py:2966-2973 | no skipped record could join the final selection |
| `Admission.SkippedExactly` | src/ocr_toolkit/review_runner.py:2966-2973 | a record is skipped exactly when it did not fit what was admitted before it |
| `Admission.PlacesAscend` | src/ocr_toolkit/review_runner.py:2960-2976 | the admitted records keep their order |
| `Arguments.OptionValues` | src/ocr_toolkit/review_runner.py:2170-2190 | the index loop computes the recursive scan |
| `ArgumentTokens.ReadBack` | src/ocr_toolkit/review_runner.py:2170-2190 | every scanner reads back, in order, the values that the words and options of a vector give it |
| `ArgumentTokens.ScannableIsSpelled` | src/ocr_toolkit/review_runner.py:2170-2190 | and every vector that all scanners read is written from such words and options |
| `ArgumentTokens.SelectorsRemoved` | src/ocr_toolkit/review_runner.py:2202-2218 | removal leaves exactly the words and options that select no revision, as they were |
| `ArgumentTokens.RevisionsRead` | src/ocr_toolkit/review_runner.py:2221-2240 | the revisions under review are the one commit and its parent, or the one base and the one head |
| `ArgumentTokens.RuleReplaced` | src/ocr_toolkit/review_runner.py:2626-2652 | replacement changes the one option that gives the old rule, in either form, and is refused unless there is exactly one |
| `Arguments.WithoutDiffOptions` | src/ocr_toolkit/review_runner.py:2202-2218 | the index loop computes the recursive removal |
| `Arguments.ReplaceRuleArgument` | src/ocr_toolkit/review_runner.py:2626-2652 | the index loop computes the recursive replacement and asks for one match |
| `Arguments.OneMeaning` | src/ocr_toolkit/review_runner.py:2174-2189 | no item is an option of two scanners |
| `Arguments.NoSelectorRemains` | src/ocr_toolkit/review_runner.py:2202-2218 | on every vector whose scans succeed no diff selector remains and the rule values are the same, in order |
| `Arguments.ProductionRefs` | src/ocr_toolkit/review_runner.py:3783-3791 | the production vector's evidence refs are the immutable pair exactly when neither looks like an option |
| `Arguments.RuleIsReplaced` | src/ocr_toolkit/review_runner.py:2626-2652 | replacement keeps the length and all items but one, no other scan notices, and the rule scan then reads the new path; it succeeds exactly when one value matches |
| `Arguments.ProductionReadsBack` | src/ocr_toolkit/review_runner.py:3783-3791 | both together: the production vector reads as the immutable pair and the policy-owned rule |

## Left out

Inputs and environment:

- Text admission (`check_text`) is a deterministic predicate on strings with a reason; its budgets, detectors and forbidden-text matcher are not modelled. Two calls on one string are assumed to agree.
- The debug bundle and the per-source counters of the sanitiser record decisions but do not influence the result.
- JSON decoding and encoding, UTF-8 decoding, SHA-256 and timestamps: parameters or absent. Decoded objects have unique keys.
- Unicode category tables: the escaping functions take the classifier of a character as a parameter. Lower-casing and login comparison are ASCII.
- Subprocesses, Git, HTTP, signals, environment variables and descriptors beyond what the protocols need. Servers are honest and consistent: a listing shows what was written. Several clients at once are not modelled, nor are releases deleted or edited by hand.
- The session directory search and the file-identity checks around the trace scan (`capture`).
- The shape of an API response or a retry report (a field that is missing or has another type) is refused by the code and is not representable in the typed models of `ReleaseProtocol`, `Issues`, `Discovery`, `RetryReport` and `Promotion`.
- Assets, digests, evidence files, changelog fragments and the Python constants rewritten by a promotion; evidence contracts are one flag per evidence.
- The 128-fold retry of temporary names keeps its bound, but names are not random.
- Power loss during a write-back of the directory itself is modelled as one binding, old or new.

Deliberately weaker or different:

- TraceProjector.Project: the projection and the codec are parameters of the scan; `TraceProjector.Projected` is the projection built from the modelled selector.
- RetryReport.ParseProjection: the details are a multiset of kinds; their sorted order is not modelled.
- Progress.CloseCanFinish: says that the heartbeat can always move towards its end; that a scheduler lets it move is an assumption about the platform.
- Issues.RunsKeep: labels that mark an issue as a duplicate are given before a run, not during it.
- Promotion.ValidateManifest: the checks of assets, digests, capabilities and evidence files in the release loop are not modelled; they do not depend on versions.
- Promotion.PrepareUpdate: the checks of assets and digests and the written files are not modelled; versions are given by their numbers and their optional prefix, which determines the text; parsing of version texts is not repeated here.
- Progress and ResultFile are state machines over values, not classes: other actors interleave between any two of their steps, which a method body cannot express.

Parts of the repository without a model here, since they would add further validators or
fixtures rather than harder properties: `_dlp_reasons`, `_tool_failure_telemetry`,
`context_read_observations`, `parse_grouping_inventory`, `LiteralContext`, `config_writer`,
`result_usage`, `release_authorization`, `release_changes_excerpt`, the approval-blocker
cascade, rendering, redaction by pattern, and the qualification probes.
