# A verified model of nopsai's core algorithms

This project models, in Dafny, the parts of nopsai whose correctness is not visible from any one
function: the concurrent log forwarder, the access-grant tables and the index derived from them,
the glob compiler of git triggers, version precedence and the compatibility contract, the
performance-test arithmetic, the fixpoint that follows a family of runs, knowledge-context
override, the authorization fail-over breaker and runtime output references.

Code that changes things step by step is modelled as classes and methods with loops, and each method
is proved against a function that says what it computes. Code that only computes is modelled as
functions. The main theorems are lemmas about those functions, over every input, every run of
commands or every interleaving.

| file | what it models |
|---|---|
| `LogForward.dfy`, `LineSplitter.dfy`, `Utf8.dfy` | scanner, bounded channel and batching loop as a step relation; line splitting over bytes (UTF-8 as RFC 3629 defines it) |
| `AccessGrants.dfy`, `TaggedRows.dfy`, `GrantRuns.dfy`, `GrantLaws.dfy` | grants, the ACL and ownership rows derived from them, reconcile, and what holds over whole runs; what each command does and refuses |
| `RoleActions.dfy`, `TeamPaths.dfy` | role-inclusion walk; memoised team paths and the owner guard's prefixes |
| `Glob.dfy`, `Regex.dfy` | pattern compiler, the regular expressions it writes, and the direct meaning of a glob |
| `Semver.dfy`, `SemverText.dfy`, `RangeText.dfy`, `Decimal.dfy`, `Compatibility.dfy` | SemVer 2.0.0 precedence (section 11), text, ranges, and who accepts whom |
| `Percentiles.dfy`, `Recorder.dfy`, `Capacity.dfy`, `BreachOrder.dfy`, `RecordedRamps.dfy`, `RecordedBreaches.dfy` | recorder, nearest-rank percentiles, stage and service verdicts and how they relate |
| `RunFamily.dfy`, `KnowledgeContext.dfy`, `KnowledgeLaws.dfy` | closure of a run family; innermost-scope override and what a selection contains |
| `AaaBreaker.dfy`, `RuntimeOutputs.dfy` | fail-over breaker over overlapping calls; output references |
| `Text.dfy`, `Wrappers.dfy` | the string operations used, and Option/Result |

## Where the code is narrower than its promise

Each of these is proved as an if-and-only-if or with a concrete failing input.

- Line chunks stay valid UTF-8 exactly when every character fits the limit; a limit below four can cut a character.
- The owner guard exempts the team whose id is `global`, so a team keeps its owner coverage exactly when its path does not start with the segment `global`.
- Granting an owner role inserts the ownership row with "do nothing on conflict", while reconcile adopts an existing row. A row that was there without a tag is therefore not tagged by the grant, and survives the deletion of the grant.
- The pattern compiler indexes bytes, so a literal pattern matches itself exactly when it is ASCII.
- The per-service report explains every stage-level breach exactly when the error budget is at most 0.99 or at least 1, also over the ramps a recorder can report.
- `CompatibilityRange` is documented as reaching up to the next major version, but each side checks the other's range, so two releases accept each other exactly within one major.minor series, short of the largest major number. A prerelease of a series baseline (patch zero) is below its own range. At the largest major number the sum wraps and the range no longer parses.
- Failed remote authorization attempts are ten seconds apart in every run exactly when no two attempts may be in flight at once. With two in flight both may fail together, and a call in flight at a failure may succeed and lift the deadline.
- A task name that contains a dot does not read back from a printed output reference; a step name may contain anything.

## Model

| member | source | states |
|---|---|---|
| LogForward.NormalizeOptions | pkg/logforward/logforward.go:103-123 | every option: positive ones are kept, others become the stated default, the scanner buffer is capped by the longest token, and the filter is kept |
| LogForward.Batcher.AppendLine | pkg/logforward/logforward.go:47-62 | a line the filter drops leaves everything as it was; any other adds pieces within the limit that join to what the filter made of it, and a batch is sent whenever it is full |
| LogForward.Batcher.Flush | pkg/logforward/logforward.go:63-69 | a flush sends the open batch if it has anything, and nothing else changes |
| LogForward.PushChunksKeeps | pkg/logforward/logforward.go:55-61 | pushing chunks keeps all text and its order, and no batch is empty or over the batch size |
| LogForward.StepKeeps | pkg/logforward/logforward.go:31-140 | every enabled step of scanner, ticker, receiver or cancel keeps the conservation invariant |
| LogForward.EveryInterleavingConserves | pkg/logforward/logforward.go:31-101 | after any schedule, sent batches plus the open batch are the expansion of exactly the received lines, a prefix of the input; sent batches hold 1 to BatchSize entries |
| LogForward.UncancelledRunSendsAll | pkg/logforward/logforward.go:86-140 | a finished run without cancellation has sent the whole input and reported a scanner error exactly when the reader failed |
| LogForward.FinishedRunSendsQueued | pkg/logforward/logforward.go:70-100 | a finished run, cancelled or not, has sent a whole-line prefix that includes every line received or queued at any earlier moment |
| LogForward.FinishedRunSendsKept | pkg/logforward/logforward.go:31-100 | what a finished run has sent is pieces of exactly the received lines the filter keeps, in order and each cut from one line; without cancellation all of the input was received |
| LogForward.TickSendsReceived | pkg/logforward/logforward.go:94-95 | a tick leaves nothing received unsent |
| LogForward.ScannerWaitsIff | pkg/logforward/logforward.go:42-135 | the scanner waits with a line in hand exactly when the channel holds two batches |
| LogForward.CancelledStaysQuiet | pkg/logforward/logforward.go:137-139 | after cancellation a read error is no longer reported |
| LogForward.ReturnedStaysPut | pkg/logforward/logforward.go:86-100 | once the loop has returned nothing more is received or sent, whatever the scanner still does |
| LogForward.RunsAreBounded | pkg/logforward/logforward.go:86-140 | apart from ticks every schedule is bounded by a measure of the work left |
| LogForward.NeverStuck | pkg/logforward/logforward.go:86-140 | until the loop returns, scanner or receiver can move without help from ticks or cancellation |
| LogForward.ScannerCanFinish | pkg/logforward/logforward.go:125-140 | after the loop has returned a scanner that has not stopped still has a step of its own to take, so it is never left blocked on the channel |
| LineSplitter.FindCut | pkg/logforward/logforward.go:149-155 | the backward scan finds the last character start at or before the limit, or the limit when there is none |
| LineSplitter.SplitLine | pkg/logforward/logforward.go:142-163 | the chunks are those of the specification, concatenate back to the line and respect the limit |
| LineSplitter.OneChunkIff | pkg/logforward/logforward.go:142-145 | a line is left whole exactly when it fits or there is no limit |
| LineSplitter.ChunksConcat | pkg/logforward/logforward.go:142-163 | for every byte string and limit the chunks concatenate back to the line |
| LineSplitter.ChunksBounded | pkg/logforward/logforward.go:142-163 | no chunk is over a positive limit, and no chunk of a line with text is empty |
| LineSplitter.ChunksValidIff | pkg/logforward/logforward.go:147-161 | for valid UTF-8 all chunks are valid exactly when every character fits the limit |
| LineSplitter.FourBytesFit | pkg/logforward/logforward.go:147-161 | a limit of four bytes or more fits every character |
| LineSplitter.ChunksGreedy | pkg/logforward/logforward.go:147-161 | no chunk could have taken the next character, so every chunk but the last has at least limit minus 3 bytes |
| RoleActions.ActionWalk.Visit | services/nopsai/access_grants_commands.go:411-440 | the recursive walk marks every role reachable from the visited one and has gathered exactly their actions, on cyclic graphs too |
| RoleActions.EffectiveProductRoleActions | services/nopsai/access_grants_commands.go:407-442 | without duplicates, exactly the union of the trimmed, non-blank actions of all reachable roles |
| RoleActions.ApplicableProductRoleActions | services/nopsai/access_grants_commands.go:392-405 | without duplicates, exactly the effective actions that apply to the resource type |
| RoleActions.EffectiveMeans | services/nopsai/access_grants_commands.go:407-442 | a role has an action exactly when some role at the end of a chain of inclusions declares it, names compared without case or surrounding space |
| RoleActions.ApplicableMeans | services/nopsai/access_grants_commands.go:392-405 | an applicable action of a defined role is one it declares, itself or by inclusion, that the resource type carries |
| RoleActions.FamilyApplies | services/nopsai/access_grants_commands.go:444-518 | a team carries every family of actions but three, any other resource type its own family and the ones listed with it |
| RoleActions.WildcardApplies | services/nopsai/access_grants_commands.go:444-449 | the wildcard action is for the platform only and nothing else is; surrounding space does not matter |
| RoleActions.IncludedRoleAllowsLess | services/nopsai/access_grants_commands.go:392-442 | an included role's applicable actions are a subset of the including role's, on every resource type |
| TeamPaths.PathBuilder.BuildPath | services/nopsai/access_grants_resolve.go:734-753 | with any valid cache the memoised builder returns the path the plain recursion defines, and keeps the cache valid |
| TeamPaths.LoadTeamPathRecords | services/nopsai/access_grants_resolve.go:704-764 | whatever the iteration order, every row gets its trimmed name, after its parent's path and a slash if it has a parent; the error comes exactly when some parent is no row; clean names are joined along the parents |
| TeamPaths.PathIsJoin | services/nopsai/access_grants_resolve.go:734-753 | on clean names the path is the plain root-to-team join, and splitting it gives the names back |
| TeamPaths.PathsAreUnique | services/nopsai/access_grants_resolve.go:734-764 | unique sibling names give unique paths |
| TeamPaths.TeamOwnerGuardResourceIDs | services/nopsai/access_grants_commands.go:375-390 | the loop lists the prefixes of the path, longest first, leaving out blank ones |
| TeamPaths.GuardMeans | services/nopsai/access_grants_commands.go:375-390 | an id is guarded exactly when it is a non-blank trimmed run of leading segments of the trimmed path |
| TeamPaths.GuardCoversLineage | services/nopsai/access_grants_commands.go:375-390 | the ids the guard looks at are exactly the paths of the team and its ancestors |
| TeamPaths.GuardIsTransitive | services/nopsai/access_grants_commands.go:375-390 | every id guarded for a guarded id is guarded for the path itself |
| TeamPaths.GuardEnds | services/nopsai/access_grants_commands.go:375-390 | the path guards itself, and its root segment is its only one-segment id |
| TaggedRows.RebuiltIsIndexed | services/nopsai/access_grants_bootstrap.go:342-391 | from any rows whose tags are known, rebuilding leaves exactly the derived tagged rows |
| TaggedRows.RebuiltIsUnique | services/nopsai/access_grants_bootstrap.go:342-391 | the result of a rebuild does not depend on the order of the grants |
| TaggedRows.RebuildIsNoOpIffIndexed | services/nopsai/access_grants_bootstrap.go:342-391 | a rebuild changes nothing exactly when the tagged rows were already the derived ones |
| TaggedRows.RebuildTwice | services/nopsai/access_grants_bootstrap.go:342-391 | a second rebuild changes nothing |
| AccessGrants.InsertAcl | services/nopsai/access_grants_commands.go:103-116 | the insert loop adds one tagged row per action, or fails exactly when one of the keys is taken |
| AccessGrants.UpsertAcl | services/nopsai/access_grants_bootstrap.go:365-377 | the upsert loop leaves one row per action tagged with the grant and touches no other |
| AccessGrants.GrantStore.GrantProductRole | services/nopsai/access_grants_commands.go:16-134 | the new tables and the result are those of the command's specification, errors in the order they are raised and nothing written on an error |
| AccessGrants.GrantStore.DeleteProductRoleGrant | services/nopsai/access_grants_commands.go:136-185 | the grant, all rows tagged with it and, for an admin, its local binding go, or one of the four refusals leaves everything as it was |
| AccessGrants.GrantStore.ReconcileProductAccessGrants | services/nopsai/access_grants_bootstrap.go:295-394 | the loop over the grants, in any order, leaves every table rebuilt from the grants of known roles |
| GrantRuns.ReconcilingIsReconciled | services/nopsai/access_grants_bootstrap.go:295-394 | a reconcile always has an outcome and only one, written down as a function of the tables |
| GrantRuns.RunKeeps | services/nopsai/access_grants_commands.go:16-185 | after any sequence of grants, deletes and reconciles the tagged ACL rows are exactly those derived from the surviving grants, and every tagged ownership row is derived |
| GrantRuns.RunKeepsOwnershipExact | services/nopsai/access_grants_commands.go:16-185 | with no untagged ownership row at the start, the ownership rows stay exactly the derived ones too |
| GrantRuns.OwnerGrantExactIff | services/nopsai/access_grants_commands.go:118-128 | an owner grant keeps the ownership rows exact exactly when no row for the pair was there |
| GrantRuns.UntaggedOwnerRowIsOrphaned | services/nopsai/access_grants_commands.go:118-185 | in any consistent tables with an untagged ownership row, granting over it and deleting the grant again leaves the row behind |
| GrantRuns.UntaggedOwnerTables | services/nopsai/access_grants_commands.go:118-185 | the failing input: consistent tables with such a row and a grant that succeeds over it; after its deletion the row is left with no grant at all |
| GrantRuns.ReconcileRestoresIndex | services/nopsai/access_grants_bootstrap.go:295-394 | from any starting rows tagged within the known grants, reconcile restores the derived index |
| GrantRuns.ReconcileIsIdempotent | services/nopsai/access_grants_bootstrap.go:295-394 | two reconciles agree and a second one changes nothing |
| GrantRuns.ReconcileIsNoOpIff | services/nopsai/access_grants_bootstrap.go:295-394 | on tables the commands maintain, reconcile is a no-op exactly when no derived ownership row is untagged |
| GrantRuns.RunKeepsOwner | services/nopsai/access_grants_commands.go:136-361 | across every run of grants, guarded deletes and reconciles a path outside `global` that the guard finds covered stays covered |
| GrantRuns.CoverageIsLineage | services/nopsai/access_grants_commands.go:330-390 | on an acyclic clean team table the guard finds a team's path covered exactly when the team or one of its ancestors has an owner grant |
| GrantRuns.RunKeepsLineageOwner | services/nopsai/access_grants_commands.go:136-390 | a team of such a table whose root is not named `global`, with an owner on itself or an ancestor, keeps one across every run |
| GrantRuns.OwnerCoverageIff | services/nopsai/access_grants_commands.go:330-361 | whatever the default admins, the guard preserves a path's owner coverage in all consistent tables exactly when the path is not under `global` |
| GrantRuns.GlobalOwnerTables | services/nopsai/access_grants_commands.go:330-341 | the failing input, for any subject that is no default admin: its owner grant on the global team is the only cover |
| GrantLaws.GrantAdds | services/nopsai/access_grants_commands.go:16-134 | a granted role is one more grant, an allow row per applicable action, an ownership row for an owner unless the pair has one, a binding for an admin, and nothing else |
| GrantLaws.GrantRefusedIff | services/nopsai/access_grants_commands.go:16-116 | each refusal of a grant with its exact condition, in order, and when there is none; a refusal changes nothing |
| GrantLaws.DeleteRemoves | services/nopsai/access_grants_commands.go:136-185 | a deleted grant is gone with every row tagged with it and, for an admin, with the local binding of its subject, and nothing else |
| GrantLaws.DeleteRefusedIff | services/nopsai/access_grants_commands.go:136-166 | each refusal of a delete with its exact condition, in order, and when there is none; a refusal changes nothing |
| GrantLaws.ReconcileLeaves | services/nopsai/access_grants_bootstrap.go:295-394 | a reconcile changes no grant, binds every admin of a known role, drops no binding and leaves unrelated rows alone |
| GrantLaws.RunKeepsAdminsExact | services/nopsai/access_grants_commands.go:16-185 | from bindings that all have a grant, after any sequence of grants, deletes and reconciles the local admin bindings are exactly those of the surviving admin grants, and those of a provider are untouched |
| GrantLaws.RunAllowsExactly | services/nopsai/access_grants_commands.go:16-185 | after any run the rows tagged with a grant are exactly the actions it allows, and ownership rows belong to owner grants, none of which lacks one |
| Glob.NextPiece | pkg/gittrigger/matcher.go:139-156 | one turn of the switch writes the piece, and uses the bytes, that the head of the pattern calls for |
| Glob.CompilePattern | pkg/gittrigger/matcher.go:135-158 | the builder loop writes the anchored text of the whole pattern |
| Glob.CompiledTextReads | pkg/gittrigger/matcher.go:135-162 | every compiled text parses, to the expression intended, so the error branch is never taken |
| Glob.RegexMeansGlob | pkg/gittrigger/matcher.go:135-165 | the compiled expression accepts exactly what the direct reading of the glob accepts |
| Glob.MatchPatternIsGlob | pkg/gittrigger/matcher.go:129-165 | a match is exactly the direct reading of the normalised pattern's bytes, which are the pattern itself when it is ASCII |
| Glob.MatchIgnores | pkg/gittrigger/matcher.go:129-131 | a leading `./`, surrounding space and the direction of slashes make no difference to a match |
| Glob.EncodedReadsBack | pkg/gittrigger/matcher.go:136-157 | the bytes a rune is indexed as give the rune back |
| Glob.EncodedIsOneCharacter | pkg/gittrigger/matcher.go:136-157 | and they are one well-formed UTF-8 character |
| Glob.PlainMatchesItselfIff | pkg/gittrigger/matcher.go:136-157 | a normalised name without wildcards matches itself exactly when it is ASCII |
| Glob.MatchesSegmentwise | pkg/gittrigger/matcher.go:138-153 | a pattern without `**` matches exactly the values with as many segments, segment by segment |
| Regex.StarNotSlash | pkg/gittrigger/matcher.go:148-149 | `[^/]*` denotes exactly the slash-free texts |
| Semver.Compare | pkg/compatibility/semver.go:69-101 | the loops compute the recursive precedence |
| Semver.PrecedenceIsSection11 | pkg/compatibility/semver.go:69-101 | for identifiers without leading zeros, precedence is the order SemVer 2.0.0 section 11 describes: numbers by value and below text, text by the first difference, a prefix below what extends it, a prerelease below its release |
| Semver.PrecedenceOrder | pkg/compatibility/semver.go:69-101 | precedence is antisymmetric in sign, and zero exactly when all but build metadata agree |
| Semver.PrecedenceTransitive | pkg/compatibility/semver.go:69-101 | precedence is transitive, strictly when either step is strict, across mixed identifiers |
| Semver.NumericByValue | pkg/compatibility/semver.go:167-197 | numeric identifiers order by value, of any length |
| Semver.Contains | pkg/compatibility/semver.go:138-147 | the loop decides whether every comparator holds |
| Semver.OperatorMeans | pkg/compatibility/semver.go:138-147 | each operator in terms of the order of section 11, and no other operator is ever met |
| Semver.InRangeMeans | pkg/compatibility/semver.go:138-147 | a range admits what each of its comparators admits, and an empty one nothing |
| Semver.RangeIsConvex | pkg/compatibility/semver.go:138-147 | every version between two contained ones is contained |
| Semver.RangeIgnoresBuild | pkg/compatibility/semver.go:138-147 | containment does not see build metadata |
| SemverText.ParseIdentifierList | pkg/compatibility/semver.go:149-165 | the loop accepts a dotted list exactly when every identifier is valid |
| SemverText.IdentifiersParseIff | pkg/compatibility/semver.go:149-165 | a dotted list is accepted exactly when its pieces are identifiers of SemVer 2.0.0 sections 9 and 10, character by character |
| SemverText.Parse | pkg/compatibility/semver.go:18-56 | the loops and early returns compute the parse function, None for every error |
| SemverText.PrintOfParse | pkg/compatibility/semver.go:18-67 | printing a parsed version gives the stripped text back character for character |
| SemverText.ParseOfPrint | pkg/compatibility/semver.go:18-67 | parsing a printed valid version gives the version back |
| SemverText.ParseOfWrapped | pkg/compatibility/semver.go:18-22 | surrounding space and one leading v are ignored |
| SemverText.ReadRange | pkg/compatibility/semver.go:113-136 | range text becomes the comparators of its tokens, or None when one is malformed |
| RangeText.RangeRoundTrip | pkg/compatibility/semver.go:113-136 | every printed range of valid versions and the five operators reads back, with spaces or commas between |
| RangeText.BareTokenReads | pkg/compatibility/semver.go:119-128 | a version without an operator asks for that version |
| RangeText.TokensReadIff | pkg/compatibility/semver.go:119-135 | a list of tokens reads exactly when each one does, to their comparators in order |
| Compatibility.DerivedRangeParses | version.go:54-77 | the range text a release derives parses to the range from its series baseline to the next major |
| Compatibility.OwnRangeIff | version.go:54-62 | a version lies in its own derived range exactly when it is not a prerelease of its baseline |
| Compatibility.AcceptEachOtherIff | pkg/compatibility/compatibility.go:21-51 | with equal API versions and derived ranges, CLI and platform accept each other exactly when major and minor agree, the major is not the largest int, and neither is a prerelease of its baseline |
| Compatibility.AcceptsIff | pkg/compatibility/compatibility.go:21-51 | for any texts, acceptance is equal API versions and either a side that is no release or each range admitting the other's version; an API mismatch is reported exactly on unequal ones |
| Compatibility.SeriesWithoutDot | version.go:42-56 | a version without a dot is its own series |
| Compatibility.LargestMajorHasNoRange | version.go:64-77 | at the largest major number the derived range does not parse |
| Percentiles.PercentileIsLeast | internal/perf/stats.go:213-234 | the nearest-rank percentile is the least sample that at least the asked share stays within |
| Percentiles.PercentileEnds | internal/perf/stats.go:213-224 | shares outside the scale give the least and the greatest sample, and no samples give zero |
| Percentiles.MergedPercentileBetween | internal/perf/stats.go:213-234 | the percentile of merged samples lies between the smallest and the largest of the groups' |
| Recorder.ScenarioSamples.Add | internal/perf/stats.go:62-77 | an added result goes into counts, failures, latencies and the first service named |
| Recorder.FailuresAreCounted | internal/perf/stats.go:25-30 | the failures are the results with an error or a status outside 2xx and 3xx |
| Recorder.ServiceIsFirst | internal/perf/stats.go:62-65 | the service is the first one named |
| Recorder.ScenarioSamples.Summary | internal/perf/stats.go:79-107 | sorting in place does not change what is reported, then or later |
| Recorder.LatencyMeans | internal/perf/stats.go:180-234 | the reported latencies are the least, the greatest and the nearest-rank quantiles of the shares 0.5, 0.9, 0.95 and 0.99 |
| Recorder.SummaryMeans | internal/perf/stats.go:79-92 | a summary counts the requests and failures of its log and reports their ratio and the latencies of its samples |
| Recorder.Recorder.Record | internal/perf/stats.go:118-128 | each result is stored once under its scenario and once in the combined samples |
| Recorder.Recorder.Overall | internal/perf/stats.go:174-178 | the combined summary is that of everything recorded, however snapshots and records interleave |
| Recorder.Recorder.Snapshot | internal/perf/stats.go:159-169 | each scenario's summary is that of its own results |
| Recorder.PartIsOwnAccount | internal/perf/stats.go:118-128 | a scenario's samples are exactly its own results |
| Recorder.WholeIsUnion | internal/perf/stats.go:118-178 | counts, failures and latencies of the whole are the sum and multiset union over the scenarios |
| Capacity.DetectBrokenScenarios | internal/perf/analysis.go:46-99 | the counting loops find the broken set of the specification |
| Capacity.BrokenMeans | internal/perf/analysis.go:42-99 | broken means: ran somewhere, and failed at least 99% in every stage it ran in |
| Capacity.AnnotateStages | internal/perf/analysis.go:151-187 | every stage is given, in place, the rate over the scenarios that are not broken and its verdict |
| BreachOrder.VerdictMeans | internal/perf/analysis.go:151-187 | the verdict's rate is that of the scenarios kept in, or the total's when they had no requests; the requests left out are counted and nothing else changes |
| Capacity.Analysis.FindRecommended | internal/perf/analysis.go:258-274 | the last level with requests before the first one whose rate or p95 is over its limit, and none exactly when no such level comes first |
| Capacity.Analysis.FindFirstBreach | internal/perf/analysis.go:295-315 | the first level with requests whose rate is over the budget or whose p95 is over the objective, and none exactly when every level with requests is within both |
| Capacity.FirstBreachIsSaturated | internal/perf/analysis.go:151-315 | of annotated stages the first breach is the first with requests that is marked saturated |
| Capacity.RecommendedBelowBreach | internal/perf/analysis.go:258-315 | the recommendation is a passed level no higher than the first breach, and no passed level below the breach is higher |
| Capacity.ServiceStages | internal/perf/service_capacity.go:61-106 | per loaded service: sums over its scenarios, the worst of each quantile, their smallest positive latency and the rate of the sums |
| RecordedRamps.QuantileIsOfScenario | internal/perf/service_capacity.go:61-106 | a quantile a group reports is that of one of its scenarios, or zero |
| BreachOrder.IdleGroupNowhere | internal/perf/service_capacity.go:61-75 | scenarios without requests or without a service are in no group |
| Capacity.CompareServices | internal/perf/service_capacity.go:109-172 | per service: requests summed over the ramp and the first level it breached at |
| BreachOrder.CapacityCountsAll | internal/perf/service_capacity.go:109-172 | a service has an entry exactly when some stage has it, with its name and its requests summed over the ramp |
| Capacity.WeakestService | internal/perf/service_capacity.go:174-189 | the breached service with the lowest level, the first on a tie, or none exactly when none breached |
| BreachOrder.CapacityBreachIsLowest | internal/perf/service_capacity.go:109-172 | on an ordered ramp a service's reported breach is the least level at which it was over its limits, and is absent when there is none |
| BreachOrder.StageBreachHasServiceBreach | internal/perf/analysis.go:151-187 | a stage over its limits has a service over its own in the same stage, though broken scenarios are excluded from one rate only |
| BreachOrder.ServicesBreachNoLater | internal/perf/service_capacity.go:109-172 | a ramp with a first breach has a service breaching at no higher concurrency |
| BreachOrder.ExplainedIffSafeBudget | internal/perf/analysis.go:151-187 | every measured ramp's breach is explained by a service exactly when the budget is at most 0.99 or at least 1 |
| BreachOrder.UnexplainedRamp | internal/perf/analysis.go:151-187 | for every budget above 0.99 and below 1, a measured ramp with a stage breach and no service breach |
| RecordedRamps.RecordedIsMeasured | internal/perf/stats.go:118-178 | what a recorder reports meets the assumptions of the breach theorems, the percentile bound included |
| RecordedRamps.ServiceNeverUnderstated | internal/perf/service_capacity.go:61-106 | a service's entry holds exactly the requests and failures recorded under it, and every worst scenario quantile it reports (p50, p90, p95, p99 and the largest) never understates that of all its samples merged |
| RecordedBreaches.DilutedIsRecorded | internal/perf/stats.go:118-178 | the stage that dilutes a service's error rate is reported by a recorder for a level it can record |
| RecordedBreaches.UnexplainedRecording | internal/perf/analysis.go:151-187 | for every budget above 0.99 and below 1, recordings whose ramp has a stage breach and no service breach in that stage |
| RecordedBreaches.RecordedExplainedIff | internal/perf/analysis.go:151-187 | over all ramps recorders can report, every stage breach is explained by a service exactly when the budget is at most 0.99 or at least 1 |
| RunFamily.FamilyIsUnique | internal/perf/pipeline.go:307-333 | the discovered family does not depend on the order of the run list |
| RunFamily.Follower.DiscoverFamily | internal/perf/pipeline.go:307-333 | the loop ends with the least set holding the watched and the triggered runs and closed under children |
| RunFamily.Follower.RecordCompletions | internal/perf/pipeline.go:220-257 | completed gains exactly the watched runs listed as complete, with the last such record of each, and loses none |
| RunFamily.Follower.Poll | internal/perf/pipeline.go:220-257 | completed stays within watched, and equal counts end the run exactly when every family run was seen complete |
| RunFamily.FamilyOfLater | internal/perf/pipeline.go:220-333 | on a list that grew, two discoveries in a row find the family of the later list from the first start |
| RunFamily.Follower.Follow | internal/perf/pipeline.go:220-257 | for any lists the watched runs hold the anchor and every run some list showed as triggered, are closed under the last list's children, and lie in every closed set over all the lists; completed runs are ones some list showed complete; on growing lists they are the family of the last list from the first anchor, and the loop finishes exactly when that list shows all of it complete |
| RunFamily.PolledOnce | internal/perf/pipeline.go:220-257 | one more poll keeps the bounds on the watched and completed runs, whatever the new list drops or adds |
| KnowledgeContext.SelectLoop | services/agent/knowledge_context.go:109-140 | overwriting slots through the seen map leaves, up to order, the last item of each key |
| KnowledgeContext.SelectEffective | services/agent/knowledge_context.go:84-150 | the selection is the resolved references in order, keeping only the last occurrence of each key |
| KnowledgeLaws.IndexMeans | services/agent/knowledge_context.go:88-101 | a name is looked up to the last snapshot that goes by it, by reference or by path |
| KnowledgeLaws.ResolveMeans | services/agent/knowledge_context.go:109-127 | a reference stands for the last snapshot of its name when that one has content, and for nothing otherwise |
| KnowledgeLaws.SelectionMeans | services/agent/knowledge_context.go:84-150 | the selection is in order, without two of a key, and holds exactly what the last reference to each key resolves to |
| KnowledgeLaws.InnermostWins | services/agent/knowledge_context.go:129-173 | a selected item carries the scope of the task if the task names its key, else of the step if the step does, else of the pipeline |
| KnowledgeLaws.NormalIgnores | services/agent/knowledge_context.go:459-469 | space around a name, slashes around it and the direction of slashes make no difference |
| KnowledgeLaws.BlockingKindsMean | services/agent/knowledge_context.go:316-340 | the blocking kinds of a selection are its guardrail and policy kinds, in any case |
| KnowledgeContext.KeyFixesSnapshot | services/agent/knowledge_context.go:111-127 | references with one key resolve to one snapshot |
| KnowledgeContext.InForceMeans | services/agent/knowledge_context.go:84-173 | a key with its snapshot is in force exactly when some reference resolves to it |
| KnowledgeContext.AddingKeepsInForce | services/agent/knowledge_context.go:152-336 | adding references at any scope takes no key, snapshot or blocking kind out of force |
| AaaBreaker.Authorizer.ShouldTryRemote | services/nopsai/aaa_helpers.go:146-156 | the decision is the event the run model allows at that time, and nothing else changes |
| AaaBreaker.Authorizer.MarkRemoteHealthy | services/nopsai/aaa_helpers.go:158-165 | a success lifts the deadline when there is a local evaluator |
| AaaBreaker.Authorizer.MarkRemoteUnavailable | services/nopsai/aaa_helpers.go:167-174 | a failure sets the deadline ten seconds ahead when there is a local evaluator |
| AaaBreaker.Authorizer.Call | services/nopsai/aaa_helpers.go:185-226 | read off the events the call leaves: the remote's decision after a success, the evaluator's after a failure or without an attempt, and without an evaluator the remote's own error or an error |
| AaaBreaker.Authorizer.BatchCheck | services/nopsai/aaa_helpers.go:227-249 | an empty batch is answered without asking anyone, any other batch as a call is |
| AaaBreaker.EarlyAttempt | services/nopsai/aaa_helpers.go:146-183 | in any interleaving, an attempt within ten seconds of a failure means a call begun before the failure has succeeded since |
| AaaBreaker.SkippedIff | services/nopsai/aaa_helpers.go:146-174 | a call leaves the remote out exactly when there is none or the last report was a failure less than ten seconds ago; without a local evaluator it never does |
| AaaBreaker.LoneFailureSpaced | services/nopsai/aaa_helpers.go:146-183 | in any interleaving, a failure reported with no other attempt in flight is followed by no failure for ten seconds |
| AaaBreaker.SpacedIffOneAtATime | services/nopsai/aaa_helpers.go:146-226 | with a local evaluator and at most n attempts in flight at once, failed attempts are at least ten seconds apart in all runs if and only if n is at most one |
| AaaBreaker.BothInFlightFail | services/nopsai/aaa_helpers.go:146-183 | the failing input: two attempts in flight at once both fail at the same moment |
| AaaBreaker.FailuresAreRare | services/nopsai/aaa_helpers.go:146-226 | with one attempt at a time, at most floor(W/10)+1 failed attempts in any window of W seconds |
| AaaBreaker.AuthorizerFailuresAreRare | services/nopsai/aaa_helpers.go:146-226 | spacing and bound for the log of any authorizer that answered its calls one at a time |
| RuntimeOutputs.RoundTripIff | pkg/models/runtime_outputs.go:23-74 | a printed step, task and output reads back exactly when the names are trimmed and not empty, the task has no dot and the output name is valid; the step may hold dots and `.outputs.` |
| RuntimeOutputs.WrittenReadsIff | pkg/models/runtime_outputs.go:19-74 | a reference written out in full carries its three names exactly when the output is letters, digits and underscores not starting with a digit |
| RuntimeOutputs.NotReferenceIff | pkg/models/runtime_outputs.go:23-27 | a value is no reference exactly when its trimmed text lacks the prefix |
| RuntimeOutputs.NoMarkerIsBad | pkg/models/runtime_outputs.go:29-34 | without the marker a reference is malformed |
| RuntimeOutputs.DotAtEnd | pkg/models/runtime_outputs.go:36-41 | a producer that ends in a dot lacks its task |
| RuntimeOutputs.StepAlone | pkg/models/runtime_outputs.go:43-60 | a producer without a dot is a step, refused when blank or when the output is no name |
| RuntimeOutputs.StepAndTask | pkg/models/runtime_outputs.go:62-73 | a producer split at its last dot is a step and a task, refused when either is blank or the output is no name |
| RuntimeOutputs.StepLevelIff | pkg/models/runtime_outputs.go:42-58 | the step-level form reads back as itself exactly when no dot but a leading one splits the step |
| RuntimeOutputs.BothReadings | pkg/models/runtime_outputs.go:76-104 | the candidates of every readable reference are its reading and the whole producer as a step, with different keys exactly when a dot splits the producer |
| RuntimeOutputs.CandidatesFailAlike | pkg/models/runtime_outputs.go:76-81 | the candidates fail exactly as the reading does |
| RuntimeOutputs.DottedStepReadsBothWays | pkg/models/runtime_outputs.go:76-112 | the step-level form of a dotted step always offers both readings |

## Left out

- Plumbing over HTTP, gRPC, SQL, Docker, Kubernetes, YAML and JSON; cryptography and tokens. Database transactions are serialised and all-or-nothing.
- Resolution of subjects and resources from the database: their typed ids are inputs, as is the order in which queries and maps are walked. Grants written by configuration, identity providers and the admin user handlers, and `deleteUserAccessArtifacts`, which bypasses the owner guard by design.
- Floating point: rates and quantiles are exact reals, durations are integers. Throughput, mean, standard deviation, knee detection, peak, report text, status and error histograms and the hints for broken scenarios are not modelled.
- The containers of services, `BusiestService`, `MostResilientService` and `SharedConstraint`: easy once the sums and the worst quantiles are known.
- Capacity.ServiceStages: leaves out throughput.
- Capacity.CompareServices: takes the stages in ascending concurrency as given and returns a map; peak throughput, peak and baseline p95, latency growth, worst error rate, CPU and the order of the report are not modelled.
- Capacity.DetectBrokenScenarios: gives the names only, because counts, rate, dominant status and hint are read off one sum each.
- Capacity.AnnotateStages: leaves out the effective throughput.
- Capacity.Analysis.FindRecommended: leaves out the text of the recommendation.
- Capacity.Analysis.FindFirstBreach: leaves out the reason text.
- Recorder.ScenarioSamples.Add: leaves out bytes and the status and error histograms, which are plain counters.
- Recorder.ScenarioSamples.Summary: leaves out mean, deviation, throughput, bytes and histograms.
- Recorder.Recorder.Overall: leaves out the same fields of the summary.
- AccessGrants.GrantStore.GrantProductRole: takes the subject, role and resource as already resolved, because the resolvers are lookups in tables outside this model.
- Find, refMatches, pathsMatch and matchesAny: plain combinations of MatchPattern.
- Glob.MatchPatternIsGlob: takes Go's regular expressions through a model of their syntax and language, not the engine; the match itself is a predicate.
- Compatibility.AcceptEachOtherIff: takes the ranges as derived from valid printed versions; case folding in the development check is ASCII.
- TeamPaths.LoadTeamPathRecords: assumes the parent chain has no cycle, as the source does; on a cycle the source does not return.
- LogForward.StepKeeps: the line filter is a function of the line, and ticks and cancellation are steps that may happen at any time; scanner buffer limits appear only as a possible read error.
- Recorder.Recorder.Snapshot: leaves out throughput and takes the sorted scenario names as given; the mutex makes each method one step.
- KnowledgeContext.SelectEffective: carries the scope as its order number; the prompt text and the revision hash are not modelled, and the list of blocking kinds is a set.
- RunFamily.Follower.Follow: the lists are those of the successful polls; timeouts, failed list requests and the statistics of completed runs are not modelled. The runs are asked for with a limit of 1000 (internal/perf/pipeline.go:358), so a list may lack runs an earlier one had; then only the bounds for any lists hold, not the exact family of the last list.
- AaaBreaker.Authorizer.Call: stands for the calls of the same shape (introspect, check, filter, audit); the answers of both evaluators are inputs and logging is not modelled.
- Config normalisers, licence tiers, governance levels, URL builders, the static role and action tables and one-off migration statements: each is read off one branch.
