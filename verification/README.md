# API integrity checker: a verified model

The repository finds outbound API calls in source code, keeps an index of them across scans,
and watches the repositories behind those APIs for changes that break a caller. This project
models its algorithms in Dafny and proves what their comments promise. `dafny verify
dfyconfig.toml` checks everything.

| files | part of the system |
|---|---|
| `Exprs`, `FormatStrings`, `Segments`, `Resolver` | the URL resolver: from expression trees to text with holes |
| `LookupLaws`, `VerbLaws`, `BlockerLaws` | what a name means, how verbs are written, where holes say they come from |
| `Uncapped`, `Meaning`, `Precision`, `Resolution`, `FormatLaws`, `ExactFormats`, `LostMeaning`, `DepthLimit` | the resolver against an evaluator without caps, against a denotation in both directions, and where meaning is lost |
| `StoreState`, `Document`, `StoreLaws`, `FindingLaws` | the persisted document, its in-place updates, what they keep, and what becomes of a finding field by field |
| `Protocol`, `ProtocolLaws`, `ReportOnce`, `Runs` | processes over the shared file, what a run reports as new, whole runs and crashes |
| `CheckUpstream`, `CheckLaws` | the check of one upstream and its histories, said of the answers alone |
| `Calls`, `Identity`, `IdentityLaws`, `Hosts` | call identity and host groups |
| `Merge`, `MergeLaws`, `IndexLaws`, `Matching`, `Chains` | merging a scan into the index, record by record, matching, histories of records |
| `OpenApi`, `OpenApiLaws`, `OpenApiDoc`, `DiffLaws`, `Pointers`, `Tallies` | the comparison of two API descriptions, and what each change stands for |
| `Masking`, `Paths`, `PathLaws`, `EscapeLaws` | URL canonicalization |
| `Literals`, `Blanking`, `Splitting`, `Slicing` | the quote- and bracket-aware scanner |
| `LiteralLaws`, `CommentLaws`, `CutLaws` | what literals are read as, what blanking takes out, where texts are cut |
| `Pacing`, `Retry`, `Declared`, `DeclaredLaws` | request pacing, retries, the table of declared operations |
| `Strs`, `Sorting` | the library functions these rely on |

Code that changes things in place is a class or a method with a loop, proved equal to a function
of its inputs or of its old state; lemmas then say what that function promises. Protocols are
state machines whose behaviours are sequences of steps by any thread.

## Where code and promise differ

In these places the code departs from its comments or from what a reader would expect. It is
modelled as it is; the lemmas named give the exact condition, a concrete input, or both.

- Only the first alternative of a format argument is used. Of several texts that loses nothing if
  and only if every argument used has one text only (`FormatLaws.KeepsEveryChoiceIff`, and
  `LostMeaning.FormatArgumentLosesAlternatives`, an input). The result of a format is not cut to
  128 segments (hence the `Short` demand of `Uncapped.CapsOnlyTrim`).
- A format verb that names itself uses up a positional argument. A format is read faithfully if
  and only if no positional verb comes after such a one (`FormatLaws.ReadFaithfullyIff`, and
  `LostMeaning.NamedVerbSkipsAnArgument`, an input).
- Two verbs that take one argument make two independent holes, so the pattern can fit texts that no
  value gives (`Precision.TakenTwice`, an input). A format is read exactly if and only if no argument
  is taken twice and no counted verb comes after a named one (`ExactFormats.ReadExactlyIff`).
- Values are deduplicated by a rendering that different values can share; the second is then
  lost. All values of a name are kept if and only if they are told apart
  (`Exprs.LookupCoversIff`, and `LostMeaning.RenderingCollisionLosesMeaning`, an input).
- The depth limit counts every level of nesting, although its comment speaks of symbol
  substitution (`DepthLimit.ExceededIff`), so a sum of more than seven literals loses its first ones
  (`DepthLimit.LongSumIff`).
- An absolute URL with a hole in it does not override a client's base
  (`Resolution.AbsoluteOverridesBase`).
- A run that cannot read its findings back reports everything (`ReportOnce.UnreadReportsAll`,
  `MonitorRuns.ReportedTwice`), so at most one report per finding holds for runs whose read-back
  succeeds (`ReportOnce.ReportedOnceInEveryInterleaving`). A fingerprint that appears twice in one
  batch is never reported (`ReportOnce.ExactlyOneReport`).
- The state of a check is committed before its findings, so a crash in between loses them for good
  (`MonitorRuns.FindingsSurviveIff`, and `MonitorRuns.AnalysedWindowLost`, a behaviour).
- A failed comparison has already saved the push time and the validator it saw, so it is not
  simply retried: an unchanged repository is never compared again
  (`CheckUpstream.FailedWindowReopensIff`, `CheckUpstream.ComparedAgainIff`, and
  `CheckUpstream.StuckForever`, a history).
- Linking a triple that is stored already leaves a decision about the host in place
  (`StoreLaws.LinkThenUnlinkAsksIff`).
- Matching calls to records is greedy: a call may take the record that a later one matches by ID.
  `Matching.SurelyExactIff` says for one call when that cannot happen, whatever else is stored,
  `Matching.TargetSurelyExactIff` for all calls of a target; `Matching.NewSecondFile` is an input in
  which it does, and `Matching.NewThirdFile` one in which it does not.
- The first commit of a record can be that of a later scan than its first scan
  (`Chains.FirstCommitIsBirthIff`, and `Chains.FirstCommitMoves`, a history).
- A record already removed is counted as removed again, so unchanged code can be reported as
  changed (`MergeLaws.UnchangedScanReportsIff`, and `MergeLaws.RemovedAgain`, an input).
- With type names read as disjoint, so that integer widened to number counts as a change, a type or
  an enumeration added where none was declared narrows a parameter without a breaking
  change (`OpenApiLaws.QuietDiffIsCompatibleIff`, and `OpenApiLaws.TypeAddedSilently`, an input).
  A method dropped together with a rename of its path parameter is reported only as a rename
  (`OpenApiDoc.DroppedOperationBreaksIff`, and `OpenApiDoc.DroppedUnderRename`, an input).
- Text that reads as a sentinel, or starts with a digit right behind a hole, does not survive
  masking (`Masking.UnmaskMask`).
- The flag that should lower concurrency after a secondary rate limit lowers nothing
  (`Pacing.OneAtATimeIff`, and `Pacing.TwoRunUnderTheFlag`, a behaviour). A request that is
  retried a 35th time panics (`Retry.SecondsExactIff`, `Retry.FirstUndrawable`), and the backoff
  before the 34th retry can leave 64 bits, so that nothing is slept (`Retry.BackoffWithinIff`, and
  `Retry.LongestBackoffIsNone`, a draw).

## Model

| member | source | states |
|---|---|---|
| Segments.CoalesceLoop | internal/resolve/resolve.go:611-624 | the loop that grows the list in place computes `Coalesce` |
| Segments.CoalesceKeepsAtoms | internal/resolve/resolve.go:611-624 | coalescing loses no character and no hole, and keeps their order |
| Segments.CoalesceNormal | internal/resolve/resolve.go:611-624 | no empty literal and no two adjacent literals are left |
| Segments.NormalUnique | internal/resolve/resolve.go:611-624 | two lists in that form with the same characters and holes are the same list |
| Segments.CoalesceCanonical | internal/resolve/resolve.go:611-624 | two lists coalesce equal exactly when their flattened characters and holes are equal |
| Segments.CoalesceKeepsMatches | internal/resolve/resolve.go:611-624 | read as a pattern with holes as wildcards, a list matches the same strings before and after |
| Exprs.DedupeLoop | internal/resolve/resolve.go:191-203 | the loop over a table of renderings keeps exactly the first value of each rendering |
| Exprs.DedupeCovers | internal/resolve/resolve.go:191-203 | no rendering is lost, and only given values are returned |
| Exprs.LookupLoop | internal/resolve/resolve.go:132-172 | the loops over scopes and definitions return `Lookup`, which `LookupLaws.LookupExact` spells out: the visible definitions of the narrowest scope that has any, else one unambiguous field |
| Exprs.BindingsFromTable | internal/resolve/resolve.go:132-172 | every value found for a name is the value of some definition of the table |
| Exprs.AllKeptIff | internal/resolve/resolve.go:191-203 | deduplication keeps every value, up to its source snippet, if and only if no two of them render alike and differ |
| Exprs.LookupCoversIff | internal/resolve/resolve.go:132-203 | a lookup returns every value a name is bound to if and only if the values of that name are told apart by their rendering |
| LookupLaws.LookupExact | internal/resolve/resolve.go:132-172 | the values found are, in table order, those of the definitions that give the name one and render unlike all earlier ones: the visible definitions with no visible one further inside (functions in types in files in the module), or, if nothing visible has the name, the fields it may mean, if they all hold one value |
| LookupLaws.FoundIff | internal/resolve/resolve.go:132-172 | a value is found, up to its rendering, if and only if some definition gives it to the name in that sense |
| LookupLaws.OwnVariableHides | internal/resolve/resolve.go:136-153 | a variable of a function hides the constant of the module from that function and from no other, on a concrete table |
| LookupLaws.RenderTellsKinds | internal/detect/expr.go:222-265 | values that render alike are of one kind, and literals and names that do have one text |
| FormatStrings.ParseFormat | internal/resolve/resolve.go:518-602 | the index loop over the format text yields the pieces of the recursive definition |
| FormatStrings.EscapeRoundTrip | internal/resolve/resolve.go:518-602 | text with `%`, `{` and `}` doubled parses back to itself exactly when it holds no `$` followed by 1 to 9 |
| VerbLaws.PercentVerb | internal/resolve/resolve.go:530-547 | a percent sign, any decoration and a letter take the next argument, whatever stands around them |
| VerbLaws.NumberedBraces | internal/resolve/resolve.go:548-575 | a number in braces, with a format spec or without, takes the argument at that index |
| VerbLaws.NamedBraces | internal/resolve/resolve.go:548-575 | a name in braces names itself and takes no argument |
| VerbLaws.DollarVerb | internal/resolve/resolve.go:584-594 | a dollar sign and a digit from 1 take the argument before that number |
| VerbLaws.StrayIsText | internal/resolve/resolve.go:530-595 | a percent sign that starts no verb, an unclosed brace, a lone closing one and a lone dollar sign are text |
| Resolver.RowCapped | internal/resolve/resolve.go:426-447 | the inner loop appends the capped row of one prefix and stops at four alternatives |
| Resolver.CrossCapped | internal/resolve/resolve.go:426-447 | the nested loops compute the first four of the full product, each cut to 128 segments |
| Resolver.AssembleLoop | internal/resolve/resolve.go:468-506 | pieces and arguments are put together with a running positional count |
| Resolver.State.Eval | internal/resolve/resolve.go:318-371 | the stateful evaluator returns the alternatives of the functional one, adds exactly its blockers and flags, and restores the visiting set |
| Resolver.State.EvalSymbol | internal/resolve/resolve.go:373-416 | a name in progress is a cycle and a hole; otherwise each value is evaluated with the name marked, and the mark is removed |
| Resolver.State.Alternatives | internal/resolve/resolve.go:318-416 | alternatives accumulate in order and are cut at four |
| Resolver.State.Sequence | internal/resolve/resolve.go:421-449 | concatenation, template and join keep the product of the alternatives, capped |
| Resolver.State.EvalFormat | internal/resolve/resolve.go:455-507 | each argument contributes its first alternative only |
| Uncapped.TrimmedProduct | internal/resolve/resolve.go:421-449 | capping before concatenating agrees with capping afterwards |
| Uncapped.CapsOnlyTrim | internal/resolve/resolve.go:318-507 | the evaluator returns the first four results of the uncapped one in order, each cut to at most its first 128 segments, where format arguments are short |
| Uncapped.CapsOnlyCut | internal/resolve/resolve.go:318-449 | without format nodes: exactly the first four uncapped results, each cut to exactly 128 segments, for cyclic tables too |
| Precision.FirstFour | internal/resolve/resolve.go:30-43 | without formats what is returned is the first four uncapped alternatives, each cut to 128 segments, in figures |
| Precision.ProductOrder | internal/resolve/resolve.go:421-449 | a product lists the alternatives of its last part for the first prefix, then for the next |
| Precision.ChoiceOrder | internal/resolve/resolve.go:318-416 | the alternatives of a choice, or of a name bound more than once, come in the order of its values |
| Meaning.Sound | internal/resolve/resolve.go:318-507 | every string an expression can denote matches some alternative of the uncapped evaluator |
| Meaning.AssembleMatches | internal/resolve/resolve.go:468-506 | an assembled format matches what its verbs render as |
| FormatLaws.OneTooLong | internal/resolve/resolve.go:472-500 | a positional verb behind a self-naming one is counted wrong, and the pattern is longer than the rendering |
| FormatLaws.ReadFaithfullyIff | internal/resolve/resolve.go:455-602 | for every format: the assembled pattern matches all renderings for all arguments if and only if no positional verb comes after one that names itself |
| FormatLaws.FillingIsAssembled | internal/resolve/resolve.go:468-506 | a format whose verbs all have literal arguments assembles to a pattern with one instance, its text with the arguments filled in |
| FormatLaws.KeepsEveryChoiceIff | internal/resolve/resolve.go:455-507 | of arguments with several texts the resolver uses the first, and that loses nothing if and only if every argument the format uses has one text only |
| Meaning.EvaluationKeepsMeaning | internal/resolve/resolve.go:318-507 | where no cap is reached, the values of each name reached are told apart and each format reached is in order, every string an expression can denote matches a returned alternative |
| Precision.Precise | internal/resolve/resolve.go:318-507 | the converse of soundness: where the evaluation is nowhere cut short, by the depth, by a name in progress or by a format that takes an argument twice or lacks one, every text that fits an alternative is one the expression can denote |
| Precision.ExactIff | internal/resolve/resolve.go:318-507 | under both sets of conditions a text fits some alternative if and only if the expression can denote it |
| Precision.ResolutionExactIff | internal/resolve/resolve.go:215-233 | the same for the resolutions a caller gets, when no cap is reached |
| Precision.TakenTwice | internal/resolve/resolve.go:468-506 | a concrete format in which two verbs take one argument fits a text that no value gives |
| ExactFormats.ReadPreciselyIff | internal/resolve/resolve.go:468-506 | where counted verbs come before named ones, a pattern fits nothing but renderings, for all arguments, if and only if no argument is taken twice |
| ExactFormats.ReadExactlyIff | internal/resolve/resolve.go:455-507 | for every format text, the pattern fits exactly the renderings, whatever the arguments, if and only if no counted verb comes after a named one and no argument is taken twice |
| Resolution.Resolve | internal/resolve/resolve.go:215-233 | resolving runs the evaluator once, coalesces each alternative and turns none into a hole |
| Resolution.ResolutionKeepsMeaning | internal/resolve/resolve.go:215-233 | the same for the coalesced resolutions |
| Resolution.BlockersComplete | internal/resolve/resolve.go:307-315 | every symbolic hole left in a resolution is named in its list of blockers |
| BlockerLaws.LeavesResolve | internal/resolve/resolve.go:318-371 | a literal resolves to its text; an environment variable, a call, a subscript and an unknown value each to one hole that says where it came from, listed as the blocker |
| BlockerLaws.UnboundResolves | internal/resolve/resolve.go:373-395 | a name bound to nothing is a hole marked as supplied by the caller if and only if some visible definition makes it a parameter |
| BlockerLaws.AliasResolves | internal/resolve/resolve.go:395-416 | a name bound to one unreadable value lends its own name to the hole exactly if that has none or a call left it |
| BlockerLaws.CycleResolves | internal/resolve/resolve.go:373-395 | a name bound to itself is a hole of that name, and the cycle is flagged |
| BlockerLaws.MultiValuedIff | internal/resolve/resolve.go:215-233 | resolutions are flagged as several if and only if there are several |
| BlockerLaws.SubscriptResolves | internal/resolve/resolve.go:628-652 | a subscript of any number of keys is one hole, named by its base and all of its keys |
| BlockerLaws.ShortName | internal/resolve/resolve.go:653-659 | the short name is what follows the last separator, called or not |
| BlockerLaws.HasSchemeIff | internal/resolve/resolve.go:278-296 | a text is absolute if and only if it is a nonempty scheme of letters, digits, plus, minus and dots, then "://", then anything |
| Resolution.ResolveWithBase | internal/resolve/resolve.go:239-276 | a base is put in front of each resolution that is not absolute |
| BlockerLaws.BaseIs | internal/resolve/resolve.go:239-254 | the base is that of the instance if it has one, else that of the file if it has one, else none |
| BlockerLaws.BasedBlockers | internal/resolve/resolve.go:258-275 | behind a base, what blocked either part is listed, so that every symbolic hole is, and the flags of both add up |
| Resolution.AbsoluteOverridesBase | internal/resolve/resolve.go:250-262 | an absolute URL at the call overrides the base exactly when it is fully literal or the base is empty |
| Resolution.RelativeFollowsBase | internal/resolve/resolve.go:262-274 | instances of base and value concatenate to instances of the result |
| LostMeaning.FormatArgumentLosesAlternatives | internal/resolve/resolve.go:460-466 | a format over a name with two values: no resolution matches the second one |
| LostMeaning.NamedVerbSkipsAnArgument | internal/resolve/resolve.go:472-500 | a concrete format in which a self-naming verb uses up the next argument |
| LostMeaning.RenderingCollisionLosesMeaning | internal/resolve/resolve.go:191-203 | of two different values that render alike, the second one is lost |
| LostMeaning.RenderingsCollide | internal/detect/expr.go:222-265 | such values exist |
| DepthLimit.ExceededIff | internal/resolve/resolve.go:318-330 | without names and choices the limit is reported as exceeded exactly when the nesting alone is deeper than six |
| DepthLimit.LongSumIff | internal/detect/golang/expr.go:40-45 | for a sum of literals read as nested pairs: the flag is set, and the pattern begins with a hole in place of the first text, if and only if there are more than six pluses |
| Document.IndexByFingerprint | internal/store/store.go:325-329 | the lookup table leads from each fingerprint to its finding |
| Document.Doc.UpsertFindings | internal/store/store.go:324-371 | the in-place loop computes `Upsert` of the batch, counts every finding as added or updated, and touches nothing else |
| Document.Doc.ResolveStaleFindings | internal/store/store.go:381-398 | the in-place loop resolves exactly the stale findings and returns their number |
| Document.Doc.SetFindingStatus | internal/store/store.go:401-415 | the first finding of that name is triaged; without one nothing changes |
| Document.Doc.StartRun | internal/store/store.go:429-443 | the sequence number grows by one and the new run carries it |
| Document.Doc.CompleteRun | internal/store/store.go:446-460 | the run with that ID is replaced in place, or the finished run is appended |
| Document.Doc.Link | internal/store/store.go:242-266 | a link of that host, repository and prefix is replaced; otherwise it is added and the decisions about its host are dropped |
| Document.Doc.Unlink | internal/store/store.go:269-284 | every link of the host goes |
| Document.Doc.SetDecision | internal/store/store.go:288-318 | the decision replaces those of its host, and one for later gets an expiry |
| StoreLaws.LinkExact | internal/store/store.go:239-266 | linking replaces the link of the same host, repository and prefix, keeping its first date, or adds one; no other link changes |
| StoreLaws.UnlinkExact | internal/store/store.go:269-284 | exactly the links of the host go |
| StoreLaws.ApplyLinks | internal/store/store.go:158-178 | every operation keeps links unique |
| StoreLaws.ApplyDecisions | internal/store/store.go:242-318 | every operation keeps at most one decision per host |
| StoreLaws.LinkThenUnlinkAsksIff | internal/store/store.go:242-308 | linking a host and unlinking it again makes the tool ask about it, unless a decision is in force and the link was for a triple already stored |
| Document.Doc.Normalize | internal/store/store.go:217-237 | upstreams, decisions, findings and runs are put in their canonical order |
| Document.Doc.Perform | internal/store/store.go:158-178 | one update applies its closure and normalizes, or fails and changes nothing |
| StoreState.FindSameFingerprints | internal/store/store.go:324-371 | replacing a finding by one of the same fingerprint moves no fingerprint |
| StoreLaws.StoredAfterSort | internal/store/store.go:217-237 | sorting unique findings changes what is stored for no fingerprint |
| StoreLaws.UpsertStored | internal/store/store.go:324-371 | an upsert acts on each fingerprint by itself and keeps fingerprints unique |
| StoreLaws.SeenCounts | internal/store/store.go:332-341 | the occurrence count grows by the number of appearances in the batch |
| FindingLaws.SeenIsUpdated | internal/store/store.go:334-362 | what a batch makes of a stored finding, field by field: breaking beats risky and risky the rest, an acknowledgement is undone exactly by a worse severity and a resolution exactly by a sighting, with their notes; evidence is that of the last sighting, corroboration adds up, occurrences grow by the number of sightings, and nothing else changes |
| FindingLaws.StoredIsUpdated | internal/store/store.go:158-178 | after an update with a batch the document holds every stored finding so changed |
| FindingLaws.SightingIsStored | internal/store/store.go:363-371 | the first sighting of an unknown fingerprint is stored as new, open unless it says otherwise, and the rest of the batch updates it |
| FindingLaws.NothingElseStored | internal/store/store.go:324-371 | a finding that the batch does not sight is stored exactly as it was |
| FindingLaws.RetirementIs | internal/store/store.go:381-398 | retiring resolves, with the note, in the name of the monitor and dated now, exactly the unresolved findings of that signal and repository that are not live |
| FindingLaws.TriageIs | internal/store/store.go:401-415 | setting a state by hand changes the first finding of that ID or fingerprint in the five fields it sets, and no other, and fails exactly if there is none |
| FindingLaws.AckedRiskyTurnsBreaking | internal/store/store.go:354-361 | an acknowledged risky finding sighted as breaking ends breaking and open |
| FindingLaws.BreakingStaysBreaking | internal/store/store.go:354-361 | a breaking finding stays one, and stays acknowledged, whatever is sighted |
| FindingLaws.NormalizedSeverestFirst | internal/model/model.go:323-337 | after every write no breaking finding stands behind another one, and no risky one behind one that is neither |
| FindingLaws.NormalizedInOrder | internal/model/model.go:323-337 | findings of one severity stand by corroboration, then latest sighting, then ID, where all severities are known ones |
| FindingLaws.StartedRun | internal/store/store.go:429-443 | a start puts one unfinished run in front, under the next number and its ID, and keeps the latest 49 others |
| FindingLaws.FinishedRun | internal/store/store.go:446-460 | finishing replaces the record of that number by the one handed in, complete and finished now; an evicted one does not come back |
| FindingLaws.LinkedAs | internal/store/store.go:242-267 | a link gets a role and a status where it names none, keeps its first date, and replaces exactly the link of its triple |
| FindingLaws.LinksInOrder | internal/store/store.go:217-231 | links stand by host, and by repository where prefix and priority are alike |
| FindingLaws.LaterIsAWeek | internal/store/store.go:288-301 | a host put off for later is asked about again exactly from a week after the decision on, and other decisions last as long as they say |
| FindingLaws.ClearingAsks | internal/store/store.go:303-320 | clearing a decision drops those of the host only, and the tool then asks about it if and only if it has no link |
| StoreLaws.TriageSurvives | internal/store/store.go:332-362 | a status set by hand survives every re-detection unless the severity worsens, breaking being worse than risky and both than the rest, and severity never weakens |
| StoreLaws.RetirementExact | internal/store/store.go:381-398 | retirement touches exactly the stale findings of its signal and repository |
| StoreLaws.ApplyFindings | internal/store/store.go:158-178 | every operation keeps fingerprints unique, loses none, and lets occurrences and severity only grow |
| StoreLaws.StartKeepsLatest | internal/store/store.go:429-443 | after a start the document still holds the latest min(n, 50) run numbers, newest first |
| StoreLaws.CompleteKeepsLatest | internal/store/store.go:446-460 | the same after a finish, even of a run that was evicted |
| StoreLaws.ApplyRuns | internal/store/store.go:217-237 | every operation keeps the runs at exactly the latest 50 sequence numbers |
| StoreLaws.UpstreamsForEndpoint | internal/store/store.go:476-484 | the loop returns the matching upstreams in stored order |
| StoreLaws.RoutingLongestFirst | internal/store/store.go:217-237 | in a normalized document, routing returns every matching upstream and never a shorter prefix before a longer one |
| Protocol.StepInv | internal/store/store.go:125-213 | every step of every thread keeps the invariant: locks, file, threads and returned calls |
| Protocol.StepCalls | internal/store/store.go:158-213 | every step hands on the closure that the caller passed, so what a call commits is that closure |
| Protocol.CrashInv | internal/store/lock_posix.go:17-35 | so does the death of a process at any point, which drops its locks |
| Protocol.RenameFile | internal/store/store.go:180-213 | a rename appends exactly one commit, and the file is again the fold of the commits |
| Protocol.RenameInv | internal/store/store.go:180-213 | a rename keeps the whole invariant, so it breaks no promise made to another call |
| Protocol.LockStepLocks | internal/store/lock_posix.go:17-35 | taking and dropping the advisory lock keeps it held by one writer and nobody else, or by any number of readers |
| Protocol.FileIsCommits | internal/store/store.go:125-213 | under any interleaving and any crashes the file is the fold of the committed closures in rename order |
| ProtocolLaws.BehaviorKeeps | internal/store/store.go:158-215 | in every behaviour the mutex of a process is held by exactly the thread of it that is inside an update, and a temporary file is there only for a thread about to rename it or a dead one |
| ProtocolLaws.EnabledIff | internal/store/lock_posix.go:19-35 | a thread waits for the mutex of its process and for the lock, and for nothing else |
| Protocol.SuccessMeansCommitted | internal/store/store.go:158-213 | an update reported as done was committed exactly once, during the call, and what was committed is the closure the caller passed |
| Protocol.CommitsInCallOrder | internal/store/store.go:158-213 | the commits of one thread are in the order of its calls |
| Protocol.FailureMeansUntouched | internal/store/store.go:158-213 | an update reported as failed was never committed |
| Protocol.ReadIsPrefix | internal/store/store.go:125-154 | a read returns the fold of a prefix of the commits that holds every commit made before the call |
| Protocol.ReadsOwnWrites | internal/store/store.go:125-178 | what a thread reads after a successful update contains the closure it passed |
| ReportOnce.LogComesFromStart | internal/store/store.go:429-460 | as long as callers finish only runs that were handed out by a start, only such runs are in the log |
| ReportOnce.EveryDocumentSound | internal/store/store.go:125-318 | in every interleaving in which callers finish only runs that were handed out by a start, each stored and each read document has unique fingerprints, links and decisions, and the latest runs |
| ReportOnce.OccurrencesAreSightings | internal/store/store.go:324-371 | a stored occurrence count is the number of sightings in all committed batches |
| ReportOnce.NewOnlyLoop | internal/monitor/run.go:200-221 | the loop keeps the findings whose stored count is one |
| ReportOnce.ReportsIff | internal/monitor/run.go:200-221 | a fingerprint is reported exactly when the batch has it and it is stored as seen once |
| ReportOnce.ReportedIsStored | internal/monitor/run.go:197-226 | what is reported is the stored record, seen at most once, of something the batch has |
| ReportOnce.UnreadReportsAll | internal/monitor/run.go:200-204 | a run whose read-back failed reports everything it found, seen before or not |
| ReportOnce.RunReportsIff | internal/monitor/run.go:174-221 | a run whose read-back succeeds reports a fingerprint exactly when its own sighting is the only one so far |
| ReportOnce.AtMostOneReport | internal/monitor/run.go:174-221 | with distinct fingerprints per batch, at most one run reports a fingerprint, whatever the interleaving |
| ReportOnce.SequentialReport | internal/monitor/run.go:174-195 | when runs follow each other, the first run that sees a fingerprint reports it |
| ReportOnce.ExactlyOneReport | internal/monitor/run.go:174-221 | of runs that follow each other one and only one reports a fingerprint that any of them sights: the first to sight it, if its batch has it once |
| ReportOnce.ReportedOnceInEveryInterleaving | internal/monitor/run.go:174-221 | over every behaviour of the protocol: of two upserts by any threads, each with a later read of its own thread, both report a finding only if one of the reads failed |
| MonitorRuns.CommittedIffRenamed | internal/store/store.go:180-213 | a call is in the log exactly when its rename has happened |
| MonitorRuns.RunsKeepDocumentsSound | internal/monitor/run.go:108-195 | so they are when runs are finished by runs, which pass on the record their own start returned |
| MonitorRuns.FoundIsStoredIff | internal/monitor/run.go:88-195 | what a run found is stored if and only if the rename of its upsert has happened or somebody else sighted it |
| MonitorRuns.ChecksComeFirst | internal/monitor/run.go:149-178 | when a run comes to its upsert, every check state of it has been committed, before the findings |
| MonitorRuns.FindingsSurviveIff | internal/monitor/run.go:149-178 | when a process dies, its findings are stored at any later moment if and only if it survived to the rename of its upsert or somebody else sighted them |
| MonitorRuns.CrashLosesFindings | internal/monitor/run.go:149-178 | for any state and findings there is a behaviour in which the state is stored, the process dies, and the findings are not stored |
| MonitorRuns.AnalysedWindowLost | internal/monitor/run.go:149-178 | so the findings of an analysed window can be lost while the stored head is already its end, where every later window of that state starts |
| MonitorRuns.ReportedTwice | internal/monitor/run.go:200-204 | a behaviour in which two runs that cannot read back report the same finding |
| CheckUpstream.Check | internal/monitor/run.go:278-434 | everything one check remembers and reports, branch by branch: errors, skips, first sight, re-anchoring, analysis |
| CheckUpstream.MergeStrings | internal/monitor/run.go:611-623 | the nonempty strings of both lists, each once, in order |
| CheckUpstream.CompareFrom | internal/monitor/run.go:370-434 | with a baseline and targets: a failed compare, a lost base, a reset branch, or an analysed window |
| CheckLaws.VerdictsMean | internal/monitor/run.go:278-434 | which answers of the source host lead to which of the ten ways a check can end |
| CheckLaws.AnalysisMovesHead | internal/monitor/run.go:395-433 | an analysed check remembers the head its comparison names, or without one the linked ref, the default branch or HEAD; its window runs from the previous head to that one, and it keeps all it found |
| CheckLaws.FirstSightIsBaseline | internal/monitor/run.go:345-357 | first sight remembers the newest commit, or the ref where there is none to be had, reports nothing and takes the specification paths and release |
| CheckLaws.RewrittenIsBaseline | internal/monitor/run.go:376-385 | a base that no longer resolves is replaced by the newest commit, and nothing is reported |
| CheckLaws.FailureKeepsHead | internal/monitor/run.go:386-388 | any other failed comparison leaves the head and the time of the check, but remembers the push time and the validator |
| CheckLaws.ResetFollowsHead | internal/monitor/run.go:389-397 | a comparison with nothing ahead sets the head to the one it names and reports nothing |
| CheckLaws.NoTargetsKeepsHead | internal/monitor/run.go:359-366 | without targets the head stays and only the push time moves on |
| CheckLaws.GateKeepsHead | internal/monitor/run.go:290-333 | an error, a 304, an archived repository or no later push leaves head and push time as they were |
| CheckLaws.WindowsChain | internal/monitor/run.go:409-431 | in any history, after an analysis whose comparison ended at a commit the next analysed window starts at that commit |
| CheckUpstream.HeadSinceAnchor | internal/monitor/run.go:278-434 | over any history the stored head is the one of the last check that anchored |
| CheckUpstream.WindowsTile | internal/monitor/run.go:278-434 | each analysed window starts where the previous one ended, or at the last re-anchor |
| CheckUpstream.BaselineComesFirst | internal/monitor/run.go:345-360 | nothing is analysed before a baseline has been taken |
| CheckUpstream.FailedWindowReopensIff | internal/monitor/run.go:303-391 | for every next answer and setting: after a failed compare the next check compares from the same head if and only if it has targets and the answer names a live repository pushed since (or the check is forced, or no push time is known), or names none and is no 304 |
| CheckUpstream.ComparedAgainIff | internal/monitor/run.go:303-391 | in any history a failed window is compared again if and only if some later check reopens it |
| CheckUpstream.FailedWindowStaysShut | internal/monitor/run.go:303-391 | as long as the repository stays quiet (an error, a 304, archived, or no later push unforced) no check compares, and head and push time stay |
| CheckUpstream.StuckForever | internal/monitor/run.go:303-391 | a concrete history: a push whose compare fails, then any number of checks that answer 304, none of which analyses it |
| Merge.BuildTiers | internal/index/merge.go:85-96 | the three lookup maps hold exactly the positions of the definition |
| Merge.UnmatchedLoop | internal/index/merge.go:196-204 | the candidates not yet taken, in order |
| Merge.FindPrevLoop | internal/index/merge.go:183-194 | by ID, then a sole candidate in the file, then a sole candidate anywhere |
| Merge.SeeCalls | internal/index/merge.go:98-137 | the loop over the scan computes merged calls, taken records, counters, added and moved |
| Merge.KeepRest | internal/index/merge.go:139-161 | the loop over the other records carries, prunes or marks them removed, and counts each |
| Merge.Merge | internal/index/merge.go:62-169 | the loops return the merged index and its report, which `IndexLaws.ScanIsAuthority` and `IndexLaws.MergedHolds` spell out record by record |
| IndexLaws.MatchRule | internal/index/merge.go:183-206 | each call, after the earlier ones took their records, continues the record of its own ID, else the sole free one of its target in its file, else the sole free one anywhere, else none |
| IndexLaws.ScanIsAuthority | internal/index/merge.go:101-137 | every call of a scan is in the merged index with all the fields the scan gave it, active, just seen, with the first scan and commit of the record it continues |
| IndexLaws.MergedHolds | internal/index/merge.go:62-169 | everything else there is a record that no call continues and whose ID no call has: as it was if the scan could not see it, else missing once more and not dropped; and each such record is there |
| IndexLaws.FirstScanHolds | internal/index/merge.go:66-83 | a first scan stores exactly its calls, born now |
| IndexLaws.CountsAreClasses | internal/index/merge.go:106-126 | the counters over the scan are the numbers of new, restored, moved and unchanged calls |
| IndexLaws.ReportListsAdded | internal/index/merge.go:107-114 | the report lists exactly the IDs of the new calls, in order |
| IndexLaws.ReportListsMoves | internal/index/merge.go:127-133 | the report lists exactly the calls whose file or line was another one in their record, from where to where |
| IndexLaws.RestIsCounted | internal/index/merge.go:139-160 | the other counters are the numbers of records carried, dropped and removed, and the removed IDs are listed |
| IndexLaws.ChangedIff | internal/index/merge.go:51-55 | a merge reports a change if and only if a call is new, stands elsewhere than recorded or brings a removed record back, or a record was looked for in vain |
| IndexLaws.IndexGoesByPlace | internal/index/model.go:259-287 | the merged index goes by file, line and column |
| MergeLaws.HitsInjective | internal/index/merge.go:98-137 | no two calls of a scan continue the same record |
| MergeLaws.UnclaimedForeign | internal/index/merge.go:139-161 | a record that no call continues shares its ID with no call of the scan |
| MergeLaws.MergedDistinct | internal/index/merge.go:62-169 | with distinct IDs in each input, the merged IDs are distinct |
| MergeLaws.ReportBalances | internal/index/merge.go:98-169 | scan, previous index and output are each split exactly by the counters |
| MergeLaws.ExactUnlessTaken | internal/index/merge.go:183-194 | a call whose ID is stored continues that record exactly when no earlier call took it |
| MergeLaws.GreedyTakesAnothersRecord | internal/index/merge.go:101-103 | a concrete index in which an earlier call takes a record that a later one matches exactly |
| Matching.OwnRecord | internal/index/merge.go:98-204 | a call continues the record of its own ID if every earlier call with its target has its own ID stored |
| Matching.StillWaitingIff | internal/index/merge.go:183-204 | a record waits for its call exactly as long as no earlier call without a waiting record of its own finds it as the sole waiting one of its target, in its file or anywhere |
| Matching.WaitingIsExact | internal/index/merge.go:98-204 | whatever else the index holds, a call whose record still waits at its turn continues it |
| Matching.SurelyExactIff | internal/index/merge.go:98-204 | over all indexes whose records keep target, file and client of their IDs: a call whose ID is stored is sure to continue that record if and only if the record still waits at its turn; otherwise the index of a single scan that found just the stored calls is one in which it does not |
| Matching.TargetSurelyExactIff | internal/index/merge.go:98-204 | all stored calls of a target are sure to continue their own records if and only if no call of it that is not stored has exactly one stored call of it behind it, in its file or at all |
| Matching.NewThirdFile | internal/index/merge.go:183-204 | a new call in front of two stored ones of its target, in three files, takes nothing |
| Matching.NewSecondFile | internal/index/merge.go:183-204 | a new call in front of the only stored one of its target takes its record, in any file |
| MergeLaws.RemergeReportsNothing | internal/index/merge.go:53-55 | scanning unchanged code again reports no change |
| MergeLaws.UnchangedScanReportsIff | internal/index/merge.go:53-55 | a scan of unchanged code, complete or filtered, reports a change if and only if it looked for some record in vain, marked removed already or not |
| MergeLaws.RemovedAgain | internal/index/merge.go:151-160 | a record already marked removed is counted as removed again |
| MergeLaws.MergedMember | internal/index/merge.go:62-169 | a merged record is what the scan saw of a call or what is left of an unclaimed record, and each of these is there |
| MergeLaws.RunLife | internal/index/merge.go:62-169 | over any history of full and partial scans with retention k > 0: active exactly at miss count 0, and the count is the number of scans in a row that looked in vain, at most k |
| MergeLaws.UnclaimedFate | internal/index/merge.go:139-161 | an unclaimed record stays in the index exactly when it is not pruned; out of scope it stays as it was |
| MergeLaws.DroppedAtMissKPlusOne | internal/index/merge.go:151-161 | it is dropped exactly at miss k + 1 |
| Chains.EveryRecordRemembers | internal/index/merge.go:101-160 | over any history of scans, with any retention: first scan and first commit of a record are the first nonempty ones along its chain of matches, its last commit that of its last sighting |
| Chains.FirstScanIsBirth | internal/index/merge.go:104-117 | the first scan of a record is the scan in which its chain was born, if that has an ID |
| Chains.FirstCommitIsBirthIff | internal/index/merge.go:112-117 | the first commit is that of the birth if and only if the birth has one or no later scan of the chain has |
| Chains.FirstCommitMoves | internal/index/merge.go:112-117 | a concrete history: born in "s1" without a commit, seen again in "s2" at "abc": first scan "s1", first commit "abc" |
| Chains.ChainsDisjoint | internal/index/merge.go:98-137 | two records of an index never share a sighting |
| Identity.SortInPlace | internal/index/model.go:277-287 | the array becomes its stable sort |
| Identity.NameInPlace | internal/index/model.go:248-255 | the loop with a table of ordinals names each call after the earlier calls of its key |
| Sorting.SortUniqueMeans | internal/index/model.go:413-431 | sorting out texts leaves each nonempty one once, in order |
| Sorting.LexIff | internal/index/model.go:259-275 | one text comes before another exactly if it is smaller where they first differ, or ends there |
| Identity.MarkInPlace | internal/index/model.go:238-246 | each call gets its target, its lists sorted out, and a confidence if it has none |
| Identity.AssignIdentity | internal/index/model.go:237-257 | the array becomes marked, sorted, named and sorted again |
| Identity.SameId | internal/index/model.go:223-226 | equal IDs mean equal target, file, client and ordinal |
| Identity.AssignedDistinct | internal/index/model.go:237-257 | with a collision-free hash the assigned IDs are pairwise distinct |
| IdentityLaws.FingerprintIff | internal/index/model.go:211-218 | two calls share a fingerprint if and only if kind, host, method and path agree |
| IdentityLaws.IdIff | internal/index/model.go:220-226 | two calls share an ID if and only if target, file, client and ordinal agree |
| IdentityLaws.MarkFills | internal/index/model.go:237-246 | marking fills in the fingerprint, sorts out the three lists, gives a confidence where there is none, and changes nothing else |
| IdentityLaws.AssignedIs | internal/index/model.go:234-257 | the result is every call, so filled in and named by how many calls of its file, target and client stand before it by place, in the order of places |
| Identity.SortCommutes | internal/index/model.go:247-257 | a map that keeps every comparison commutes with sorting |
| Identity.MovingLinesKeepsIds | internal/index/model.go:237-257 | any per-file strictly increasing renumbering of lines keeps every ID and the order of calls |
| Hosts.Gather | internal/index/model.go:298-324 | the accumulating loop holds one summary per host that still has a call |
| Hosts.AccMeans | internal/index/model.go:298-324 | count, paths, methods and languages of a host are those of its calls that are not removed, and the best score is theirs |
| Hosts.AccVendor | internal/index/model.go:303-316 | a known vendor stays, otherwise the first call that names one gives it |
| Hosts.AccKind | internal/index/model.go:303-310 | the host kind is that of the first call of the host |
| Hosts.AccConfidence | internal/index/model.go:58-67 | the confidence of a group is the highest of its calls |
| Hosts.BuildHosts | internal/index/model.go:290-335 | one group per live host, strictly sorted, each the summary of its calls |
| Hosts.GroupsTell | internal/index/model.go:288-338 | each group counts the calls of its host that are not removed, counts their paths, and lists each of their methods and languages once; every host with such a call has a group |
| Hosts.CountsAddUp | internal/index/model.go:290-335 | the counts of the groups sum to the calls that are not removed |
| Sorting.SortedKeys | internal/monitor/analyze/openapi/diff.go:453-460 | the elements of a set, each once, in order |
| OpenApi.MissingLoop | internal/monitor/analyze/openapi/diff.go:341-354 | the loop with a table of kept entries computes `Missing` |
| OpenApi.MissingMembers | internal/monitor/analyze/openapi/diff.go:341-354 | exactly the entries that are no longer there |
| OpenApi.DiffParams | internal/monitor/analyze/openapi/diff.go:181-242 | the changes of the two parameter loops, each as often as it is due, in any map order |
| OpenApi.DiffBody | internal/monitor/analyze/openapi/diff.go:244-261 | the changes of the request body, each as often as it is due |
| OpenApi.DiffFields | internal/monitor/analyze/openapi/diff.go:263-290 | the removed fields of one success response, each once |
| OpenApi.DiffResponses | internal/monitor/analyze/openapi/diff.go:263-290 | the same over all responses |
| OpenApi.DiffOperation | internal/monitor/analyze/openapi/diff.go:176-329 | the changes between two versions of an operation as a multiset: none missing, none invented, none twice |
| Tallies.TotalAdd | internal/monitor/analyze/openapi/diff.go:176-290 | what a loop over a set of keys gathers does not depend on the order of the keys |
| OpenApiLaws.Refused | internal/monitor/analyze/openapi/diff.go:176-261 | whatever the new operation asks beyond the old one refuses some request that the old one accepts |
| OpenApiLaws.CompatibleIsFits | internal/monitor/analyze/openapi/diff.go:176-261 | all old requests pass exactly when no shared parameter is narrower and nothing new is required |
| OpenApiLaws.NothingBreaksIsUnflagged | internal/monitor/analyze/openapi/diff.go:176-261 | no breaking request-side change exactly when none of the flagged conditions holds |
| OpenApiLaws.NoBreakingChangeIsCompatible | internal/monitor/analyze/openapi/diff.go:176-261 | where both sides declare types and enumerations alike: no breaking request-side change if and only if every accepted old request is still accepted |
| OpenApiLaws.QuietDiffIsCompatibleIff | internal/monitor/analyze/openapi/diff.go:204-212 | for all inputs: a diff without breaking request-side changes is compatible if and only if no type or enumeration was added where there was none |
| OpenApiLaws.TypeAddedSilently | internal/monitor/analyze/openapi/diff.go:204-212 | a concrete pair: a parameter without a type becomes an integer, nothing is reported, and a text value is refused |
| OpenApiLaws.PromisedFieldsSurvive | internal/monitor/analyze/openapi/diff.go:263-290 | no breaking field removal if and only if every promised field at a success code both sides describe survives |
| DiffLaws.SuccessStartsWithTwo | internal/monitor/analyze/openapi/diff.go:375-384 | a three-digit code, with or without space around it, is a success if and only if it starts with 2 |
| DiffLaws.NoNumberIsSuccessIff | internal/monitor/analyze/openapi/diff.go:375-384 | a code that is no number is a success if and only if it starts with 2 |
| DiffLaws.OtherLengthsAreNone | internal/monitor/analyze/openapi/diff.go:375-384 | a number of another length is none, unless it is too large to be read and starts with 2 |
| DiffLaws.ReportedIffDue | internal/monitor/analyze/openapi/diff.go:176-330 | between two operations exactly these changes are reported, signal by signal, with their texts and whether they break: what each one stands for is said without the loops |
| DiffLaws.RemovedPromiseBreaks | internal/monitor/analyze/openapi/diff.go:263-290 | a field gone at a three-digit code is reported if and only if the code starts with 2, as breaking exactly if it was promised |
| DiffLaws.PromisesAtTwoHundreds | internal/monitor/analyze/openapi/diff.go:263-290 | where no field breaks, what was promised at a code in the two hundreds is still there |
| DiffLaws.PromiseAt200 | internal/monitor/analyze/openapi/diff.go:263-290 | the field "id", promised at "200" and then gone, is a breaking change, on concrete operations |
| DiffLaws.SecurityAddedBreaks | internal/monitor/analyze/openapi/diff.go:300-312 | requiring a credential where none was required is breaking, requiring none any more is not |
| DiffLaws.DocReportedIffDue | internal/monitor/analyze/openapi/diff.go:57-164 | between two documents exactly these changes are reported: of servers, security and version, of paths renamed or removed, of operations compared, followed or removed, and of new ones |
| DiffLaws.RenamedKeepsTemplate | internal/monitor/analyze/openapi/diff.go:429-434 | renaming a path parameter leaves the template as it is, wherever the parameter stands |
| DiffLaws.MajorBumpIff | internal/monitor/analyze/openapi/diff.go:397-420 | the major version grew if and only if the number in front of the first dot, dash or plus did |
| OpenApiLaws.SelfDiffEmpty | internal/monitor/analyze/openapi/diff.go:176-329 | an operation does not differ from itself |
| OpenApiDoc.TemplateIndex | internal/monitor/analyze/openapi/diff.go:439-451 | each template leads to the first parameterised path that has it |
| OpenApiDoc.TemplateIdempotent | internal/monitor/analyze/openapi/diff.go:429-434 | a template is its own template |
| OpenApiDoc.DiffPaths | internal/monitor/analyze/openapi/diff.go:88-112 | exactly one change for each path that is gone |
| OpenApiDoc.DiffKey | internal/monitor/analyze/openapi/diff.go:114-143 | compared, followed through a rename, reported as removed, or left to the path, each change as often as it is due |
| OpenApiDoc.DiffKeys | internal/monitor/analyze/openapi/diff.go:114-143 | the same over all operations, each missing one counted once |
| OpenApiDoc.OpChangesAreNotStructural | internal/monitor/analyze/openapi/diff.go:176-329 | comparing two operations never reports a whole path or operation |
| OpenApiDoc.Diff | internal/monitor/analyze/openapi/diff.go:57-164 | the changes between two documents as a multiset, sorted; every missing operation is covered exactly once; `DiffLaws.DocReportedIffDue` says which changes these are |
| OpenApiDoc.SelfDocDiffEmpty | internal/monitor/analyze/openapi/diff.go:57-164 | a document does not differ from itself |
| OpenApiDoc.DroppedOperationBreaksIff | internal/monitor/analyze/openapi/diff.go:117-143 | a dropped operation is reported as breaking if and only if its path survives or no parameterised path of the head has its template |
| OpenApiDoc.DroppedUnderRename | internal/monitor/analyze/openapi/diff.go:117-143 | a concrete pair: POST /{a} is dropped while its path becomes /{b}, and no breaking change says so |
| Pointers.EscapeIsCoded | internal/monitor/analyze/openapi/diff.go:422-425 | the two replacements escape exactly `~` and `/`, character by character |
| Pointers.PointerRoundTrip | internal/monitor/analyze/openapi/openapi.go:355-356 | following a reference undoes the escaping |
| Pointers.EscapedHasNoSlash | internal/monitor/analyze/openapi/diff.go:422-427 | an escaped path is one token |
| Pointers.PointersAreDistinct | internal/monitor/analyze/openapi/diff.go:427-464 | distinct paths, and distinct operations up to the case of the method, get distinct pointers |
| Pointers.PointerSpelled | internal/monitor/analyze/openapi/diff.go:422-464 | the pointer of an operation on a path of one segment, in full |
| Masking.Mask | internal/normalize/url.go:168-180 | the loop writes literals and numbered sentinels and collects the holes |
| Masking.UnmaskLoop | internal/normalize/url.go:183-202 | the loop over the matches computes the recursive definition |
| Masking.NoCrossing | internal/normalize/url.go:86-90 | no match runs from literal text into a sentinel |
| Masking.NormalRoundTrip | internal/normalize/url.go:168-202 | a coalesced list comes back if and only if its text is clean, from any hole number on |
| Masking.UnmaskMask | internal/normalize/url.go:168-202 | masking and unmasking gives the coalesced list if and only if no literal of it holds a sentinel with a digit and none behind a hole starts with a digit |
| Masking.FirstSentinelIs | internal/normalize/url.go:160-204 | a match is the leftmost "aitxhole" with a digit behind it |
| Paths.UpperPercentEscapes | internal/normalize/url.go:424-436 | the pass over the buffer upper-cases the digits of every escape and changes nothing else |
| Paths.UpperIsNormal | internal/normalize/url.go:424-436 | no lower-case escape is left |
| Paths.SqueezeLoop | internal/normalize/url.go:381-383 | the loop of replacements leaves one slash for every run |
| Paths.SqueezedIsNormal | internal/normalize/url.go:381-383 | no double slash is left |
| Paths.PathCleanLoop | internal/normalize/url.go:406-422 | the pass with a stack computes the recursive definition |
| Paths.CleanPathSteps | internal/normalize/url.go:376-404 | the steps in order, with the trailing-slash and dot-segment reports |
| EscapeLaws.UpperKeepsValues | internal/normalize/url.go:424-447 | upper-casing keeps every escape and its value, and changes no character outside of one |
| EscapeLaws.CleanEscapesAreCapital | internal/normalize/url.go:376-404 | no digit of an escape in a cleaned path is a small letter |
| EscapeLaws.CleanKeepsSegments | internal/normalize/url.go:376-404 | where no dot segment is resolved, a cleaned path has the segments of the path, but for empty ones |
| EscapeLaws.TrailingIff | internal/normalize/url.go:383-403 | a trailing slash is reported if and only if the path ends in one and is not made of slashes only |
| EscapeLaws.ResolvedIff | internal/normalize/url.go:386-394 | dot segments are reported as resolved if and only if there are some and the path had no hole |
| PathLaws.NoDotsMeansDotFree | internal/normalize/url.go:388-390 | the substring tests miss no dot segment |
| PathLaws.CleanIsNormal | internal/normalize/url.go:376-436 | leading slash, no double slash, no trailing slash but the root, upper-case escapes, and without holes no dot segment |
| PathLaws.NormalFixed | internal/normalize/url.go:376-436 | a path in that form is left as it is |
| PathLaws.CleanIdempotent | internal/normalize/url.go:376-436 | cleaning is idempotent |
| PathLaws.RfcAgrees | internal/normalize/url.go:406-422 | segment by segment the stack and the output buffer of section 5.2.4 of RFC 3986 agree |
| PathLaws.CleanIsRemoveDots | internal/normalize/url.go:376-422 | on hole-free paths without empty segments, cleaning is remove_dot_segments up to a trailing slash |
| Declared.StripMeans | internal/monitor/coverage.go:367-378 | a prefix is stripped exactly on a segment boundary |
| Declared.KeysApart | internal/monitor/target.go:184-184 | a table key stands for one method and path, when methods hold no space |
| Declared.DeclaredSet.Put | internal/monitor/coverage.go:298-302 | the first record under a key stays |
| Declared.DeclaredSet.AddOp | internal/monitor/coverage.go:284-295 | an operation is registered bare and behind each server |
| Declared.DeclaredSet.Add | internal/monitor/coverage.go:279-296 | after adding a document the table holds exactly the entries of all documents |
| Declared.DeclaredSet.Candidates | internal/monitor/coverage.go:307-315 | the path, and the path behind each known server |
| Declared.DeclaredSet.Lookup | internal/monitor/coverage.go:306-338 | yes if and only if a plain search of all documents says yes, and what it names is such an operation |
| Declared.OrderDoesNotMatter | internal/monitor/coverage.go:279-338 | the answer depends on the set of documents only |
| DeclaredLaws.AnswersIff | internal/monitor/coverage.go:306-330 | a declared method answers calls of its own name in any case, "any" answers all, and a call of any method is answered by the seven listed ones |
| DeclaredLaws.DocumentedIff | internal/monitor/coverage.go:275-341 | a call is documented if and only if some document declares, bare or behind one of its servers, an operation at the path of the call, or at what is left of it behind a server of some document, and its method answers |
| Literals.MatchInterpLoop | internal/detect/lineengine/slice.go:213-276 | the nesting loop finds the end of an interpolation and the text of the expression in it |
| Literals.SigilLoop | internal/detect/lineengine/slice.go:241-274 | the loops over a variable and its members find its end and its text |
| Literals.ScanStringBody | internal/detect/lineengine/slice.go:171-209 | the body loop finds the end of a literal and its parts: text with escapes undone, and interpolated expressions |
| Literals.QuotedRoundTrip | internal/detect/lineengine/slice.go:171-209 | a text quoted by escaping, or by doubling delimiters where there are no escapes, is read back as it was, and the literal ends behind its delimiter |
| Literals.BodyEndsAtClose | internal/detect/lineengine/slice.go:171-209 | a literal ends behind its closing delimiter or with the text |
| Literals.BodyEndsAtFirstClose | internal/detect/lineengine/slice.go:171-209 | without interpolation, an escaping literal ends at the first delimiter that is not escaped |
| Literals.ScanStringLoop | internal/detect/lineengine/slice.go:126-149 | the first syntax that matches gives the literal: its end, its parts and its documentation mark |
| LiteralLaws.EscapeReads | internal/detect/lineengine/slice.go:180-184 | a backslash and a character are read as the newline, tab, return, NUL or character they write |
| LiteralLaws.InterpolationReads | internal/detect/lineengine/slice.go:213-236 | an interpolation ends at its own closing marker, however deep others are nested in it |
| LiteralLaws.FirstInterpIff | internal/detect/lineengine/slice.go:213-217 | of the interpolations that open at a place the first listed one counts |
| LiteralLaws.InterpolationSplits | internal/detect/lineengine/slice.go:171-209 | an interpolated literal is the text before it, the expression, and the rest |
| LiteralLaws.VariableReads | internal/detect/lineengine/slice.go:237-272 | a variable behind a sigil is read with all the members it selects, and no further |
| LiteralLaws.BracedVariableReads | internal/detect/lineengine/slice.go:239-244 | a braced variable is read as what stands in the braces |
| LiteralLaws.OpensIff | internal/detect/lineengine/slice.go:126-169 | a literal opens with its prefix and delimiter, and a bare one not behind a one-letter prefix that is no part of a word |
| LiteralLaws.UnclosedIsRead | internal/detect/lineengine/slice.go:205-208 | an unclosed literal runs to the end, and only one that opens there is none |
| Blanking.BlankRange | internal/detect/lineengine/slice.go:14-20 | a range is overwritten with spaces, newlines kept |
| Blanking.TokenAt | internal/detect/lineengine/slice.go:31-82 | literals, documentation blocks, line and block comments are tried in this order |
| Blanking.BlankNonCode | internal/detect/lineengine/slice.go:12-84 | the buffer edited in place is the text with prose blanked, and the loop ends |
| Blanking.BlankingKeepsLayout | internal/detect/lineengine/slice.go:7-11 | same length, same newlines, every byte kept or a space |
| Blanking.LiteralsSurvive | internal/detect/lineengine/slice.go:32-43 | a literal the scan meets is kept byte by byte |
| CommentLaws.LineCommentTakenOut | internal/detect/lineengine/slice.go:51-66 | a line comment the scan meets is blanked up to the end of its line, and the scan goes on there |
| CommentLaws.BlockCommentTakenOut | internal/detect/lineengine/slice.go:67-78 | a block comment is blanked through its first end marker, or to the end of the text |
| CommentLaws.StringTakenOutIff | internal/detect/lineengine/slice.go:37-44 | a string is blanked if it is documentation and stands alone on its line, and stays byte by byte otherwise |
| CommentLaws.PodTakenOut | internal/detect/lineengine/slice.go:45-50 | a documentation block that starts a line is blanked to its end |
| CommentLaws.PodEndsAtCut | internal/detect/lineengine/slice.go:86-104 | which is the end of the first line that reads "=cut" |
| CommentLaws.CodeStays | internal/detect/lineengine/slice.go:32-82 | what starts no literal, block or comment stays |
| CommentLaws.EndIsTakenOut | internal/detect/lineengine/slice.go:24-29 | behind the first line that starts with an end marker everything is blanked |
| Blanking.BlankingKeepsPositions | internal/detect/lineengine/engine.go:755-762 | every offset has the same line and column before and after |
| Blanking.PositionsInOrder | internal/detect/lineengine/engine.go:755-762 | different offsets have different positions, in order |
| CommentLaws.PositionIs | internal/detect/lineengine/engine.go:755-762 | an offset is on the line after as many newlines as come before it, in the column counted from the start of its line |
| Splitting.SplitTopLevel | internal/detect/lineengine/slice.go:394-417 | the index loop yields the pieces of the walk |
| Splitting.SplitTopLevelOp | internal/detect/lineengine/parse.go:248-278 | the same for an operator; without a cut the text itself |
| Splitting.SplitTopLevelExact | internal/detect/lineengine/slice.go:394-417 | the pieces rejoin to the text, and it is cut exactly at separators at depth 0 outside literals |
| Splitting.SplitTopLevelOpExact | internal/detect/lineengine/parse.go:248-299 | the same for operators that are not part of a longer one |
| Splitting.DepthIsNet | internal/detect/lineengine/slice.go:394-417 | the depth is the count of open brackets in the text with literals written over |
| CutLaws.SeparatorCuts | internal/detect/lineengine/slice.go:394-417 | a text is cut at the separator where the walk stands at depth 0 and no literal starts |
| CutLaws.PlusCuts | internal/detect/lineengine/parse.go:248-298 | "+" cuts unless it is part of "++" or "+=" |
| CutLaws.DotCuts | internal/detect/lineengine/parse.go:248-298 | "." cuts unless it selects a member, stands in a number, or is part of ".." or ".=" |
| CutLaws.ArgumentCuts | internal/detect/lineengine/slice.go:299-347 | arguments are cut at commas directly inside the call, and where the language says so at "=>" |
| CutLaws.ArgumentsAre | internal/detect/lineengine/slice.go:350-356 | blank arguments in front are dropped, all others are kept in order, trimmed |
| Slicing.SliceArgs | internal/detect/lineengine/slice.go:299-348 | the trimmed arguments and the end of the call, on balanced and unbalanced input |
| Slicing.SliceEndsAtFirstReturn | internal/detect/lineengine/slice.go:299-348 | the call ends just after the first return to depth 0, and nowhere when there is none |
| Slicing.ArgumentsCutExactly | internal/detect/lineengine/slice.go:299-348 | the arguments before trimming are the texts between the bracket and the end of the call, cut exactly at the separators at depth 1 outside literals |
| Slicing.Balanced | internal/detect/lineengine/parse.go:312-331 | true if and only if the depth is never negative and ends at 0 |
| Pacing.StepInv | internal/ghsource/rest.go:194-328 | every step of every goroutine keeps the semaphore, the mutex and the spacing |
| Pacing.InFlightBounded | internal/ghsource/rest.go:306-310 | requests in flight never exceed the semaphore, which counts exactly the holders |
| Pacing.ReleasedOnce | internal/ghsource/rest.go:194-199 | each acquired slot is released once: after a request and after an interrupted sleep |
| Pacing.StartsSpaced | internal/ghsource/rest.go:312-319 | reserved start times are at least the interval apart, with two clock reads in between |
| Pacing.RunsAfterReserved | internal/ghsource/rest.go:312-326 | sleeping for the measured wait from whenever the mutex was left, no request runs before its reserved time |
| Pacing.WaitIsLeast | internal/ghsource/rest.go:310-317 | the wait is the least that puts the start the interval behind the last one |
| Pacing.EnabledIff | internal/ghsource/rest.go:295-328 | a goroutine waits for nothing but a free slot, the mutex and its own time |
| Pacing.SlotsGivenBack | internal/ghsource/rest.go:305-326 | a finished request and an interrupted sleep give their slot back, and no other step but acquiring one changes the count |
| Pacing.TwoRunUnderTheFlag | internal/ghsource/rest.go:296-310 | with two slots and two goroutines there is a behaviour in which two requests run after a secondary limit has set the flag |
| Pacing.OneAtATimeIff | internal/ghsource/rest.go:296-310 | with the flag set requests run one at a time in every behaviour if and only if there is at most one slot or one goroutine |
| Retry.Do | internal/ghsource/rest.go:138-192 | at most one request per allowed attempt, why the loop ended, and M * MaxWait + 1.5 * (2^(M-1) - 1) seconds as a strict bound on retry sleeps for M > 1, for every M; the draw before attempt 35 panics |
| Retry.SecondsExactIff | internal/ghsource/rest.go:145-146 | the duration of 2^n seconds is exact if and only if n is at most 33 |
| Retry.FirstUndrawable | internal/ghsource/rest.go:145-146 | the backoff before attempt 35 has no random part to draw, and that of every earlier attempt has |
| Retry.BackoffWithinIff | internal/ghsource/rest.go:140-149 | the backoff before attempt i is from half of 2^(i-1) seconds to one and a half times that if and only if the sum of its parts fits 64 bits, as it does up to attempt 33 |
| Retry.LongestBackoffIsNone | internal/ghsource/rest.go:140-149 | before attempt 34 the greatest draw wraps around, and nothing is slept |
| Retry.WaitIs | internal/ghsource/rest.go:156-184 | a rate limit is waited out for what the server says, or 2^i seconds, if that is not longer than allowed |
| Retry.RetriesIff | internal/ghsource/rest.go:138-191 | another attempt is made after a transient failure or a rate limit that was waited out, and after nothing else |

## Left out

- Network, files, JSON and YAML decoding, regular expressions at large and `url.Parse`. Answers
  of the source host, clocks, random draws and failures are parameters or steps of a protocol.
- SHA-256 is any function without collisions whose digests hold no NUL byte.
- Sorting is a stable insertion sort on values; the library's sort is assumed to agree with it.
  The resolver's sorted lists of blockers and flags are sets, and errors carry no text.
- Strings are sequences of characters; the byte and rune distinction of Go is not modelled.
- Link credits and the JSON shape of the document.
- The lock on systems without advisory locks, which does nothing by design.
- Resolver: the trimming of source snippets, and the table of client bindings beyond one base.
- OpenAPI: parsing of a document (`Parse`, `schemaProps`, `resolve`) and documents that are absent;
  a comparison with an absent document yields nothing.
- Canonicalization: host classification, query keys, placeholders and the collapsing of
  identifiers (`Canonicalize`, `buildPath`, `splitQuery`).
- Scanner: expression parsing above the splitters and the language tables. What the tables must
  satisfy for the loops to end is `Literals.ValidSpec`.
- Check runs: selecting upstreams, the budget of specification fetches, severity filtering and the
  analyses themselves; their findings are an input. Each repository key is taken to be linked once:
  two links of one repository write the same check state, and the later one of a run wins.
- MonitorRuns.FoundIsStoredIff: takes the batch after severity filtering; what the filter drops is
  not stored by design.
- Pacing.StartsSpaced: spaces the reserved times; the moments at which requests really start may be
  closer when a sleeping goroutine is woken late.
- MergeLaws.RunLife: does not model the wall-clock fields of a record.
- Declared.DeclaredSet.Lookup: does not model how server URLs become base paths; methods are taken
  to hold no space, as HTTP methods do.
- Identity.AssignedDistinct: does not cover file or client names with NUL bytes, which can join
  to the same text.
- FormatLaws.KeepsEveryChoiceIff: covers formats whose verbs all have arguments with hole-free
  alternatives; with holes, an alternative may be an instance of another one.
- OpenApiLaws.NoBreakingChangeIsCompatible: reads type names as disjoint, as the diff does; a client
  that sends integers still passes after a widening to number, which counts as a narrowing here.
