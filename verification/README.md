# Verified model of the Cognitive OS runtime components

This project models nine stateful components of Cognitive OS in Dafny and proves what each of them
claims over all inputs and all runs. `dafny verify dfyconfig.toml` checks everything.

| component | source | modules |
|---|---|---|
| branch leases | `cos_lib/branch_lock.py` | `BranchLock` |
| transcript compression | `cos_lib/context_compressor.py` | `Transcript`, `ToolPruning`, `PairRepair`, `ContextCompressor` |
| grant tokens and nonce store | `cos_lib/cosd_grant.py`, `cos_lib/cosd_grant_store.py` | `Base64Url`, `NonceStore`, `GrantToken` |
| circuit breaker | `cos_lib/circuit_breaker.py` | `CircuitBreaker` |
| consequence engine | `cos_lib/consequence_engine.py`, `cos_lib/model_catalog.py` | `ConsequenceEngine`, `ModelDowngrade` |
| checkpoint retention | `cos_lib/checkpoint_manager.py` | `CheckpointRetention` |
| fallback YAML loader | `yaml.py` | `YamlText`, `YamlScalars`, `YamlLoader`, `YamlRoundTrip` |
| merge of search results | `cos_lib/context_injector.py` | `TopKMerge` |
| tail of agent output | `cos_lib/agent_output_monitor.py` | `TailReader` |

`Common` holds the Python slicing, search, splitting and stripping rules that several of them use.

Each component has the form of its source: objects are classes whose methods update their fields, loops
are loops. Every method is proved against a specification function, and the properties are lemmas about
those functions. What a step reads from its surroundings is a parameter: clock readings, live PIDs, the
state file at start. JSON, HMAC, the content hash, the summariser, the similarity scores, the parser of
one output line, the marker search, the model names and the reading of bracketed and fractional YAML
values are arbitrary functions; for JSON payloads a round trip is assumed where a lemma says so. Times
and scores are real numbers.

Where the code does not keep what its documentation or its names promise, the model follows the code.
Lemmas say exactly when the promise holds, and give an input on which it fails:

- a failed summary returns the pruned messages, not the originals (`FailureReturnsPruned`,
  `FailureLosesOutput`), and pruning twice can prune more (`PruningIsIdempotentExactly`,
  `LongIdIsPrunedTwice`);
- compression can let a `TypeError` escape (`ContextCompressor.RaisesExactly`, `ListContentRaises`) and can
  lengthen a transcript by one (`CompressionShortensExactly`, `CompressionLengthens`);
- the tail is guaranteed two messages, not three (`TailIsLongestAdmissible`, `TwoMessageTail`);
- `verify_token` can raise (`GrantToken.RaisesExactly`), also on a token that `issue_token` made
  (`IssuedTokenIsSafeExactly`, `NumericResourceRaises`), and scope matching is not transitive
  (`ScopeMatchingComposesExactly`, `ScopeMatchingIsNotTransitive`);
- `max_rows` is not a maximum (`MaxRowsHoldsExactly`, `MaxRowsIsNoBound`);
- half-open permits any number of probes and a failed one does not renew the cooldown
  (`BreakerIsItsHistory`, `CooldownIsNotRenewed`, `FailedProbeLaunchesAgain`);
- a limit of more than ten low scores never disables anything (`DisablingIsReachableExactly`);
- the model tier forced on a degraded target can differ from the model suggested for it
  (`ForcedTierExactly`, `FableIsForcedTooLow`);
- a negative `keep_last` removes more on every run (`RetentionIsIdempotentExactly`,
  `NegativeKeepLastDropsAgain`), and the newest checkpoint can exceed the byte budget
  (`RetentionIsDownwardClosed`, `NewestMayExceedBudget`);
- `release_all_for_session` leaves locks whose name starts with a dot (`SweepIsComplete`,
  `DotBranchIsHidden`);
- the YAML loader loses empty lists (`LoadUndoesPrint`), the line breaks of a literal block
  (`LiteralNewlineIsLost`) and the place of a key behind a mapping that begins a list item
  (`NextKeyIsSwallowed`);
- cutting each search source early can lose a result (`PushdownExactly`, `SelectionsPushDownExactly`,
  `RepeatedPathsBreakPushdown`).

## Model

| member | source | states |
|---|---|---|
| `BranchLock.LockDirectory.constructor` | cos_lib/branch_lock.py:22-25 | a new lock directory holds no lock |
| `BranchLock.LockDirectory.Holder` | cos_lib/branch_lock.py:79-91 | returns the row unless it is both expired and its PID is dead, in which case the file is removed; nothing else changes |
| `BranchLock.LockDirectory.Acquire` | cos_lib/branch_lock.py:94-128 | the new directory and the reply, with the clock sampled before the flock and the PID probed twice |
| `BranchLock.LockDirectory.Renew` | cos_lib/branch_lock.py:131-141 | only the holder's own row gets a new expiry, dated by a third clock reading; anyone else is refused |
| `BranchLock.LockDirectory.Release` | cos_lib/branch_lock.py:144-158 | only the holder's own row is removed |
| `BranchLock.LockDirectory.ReleaseAll` | cos_lib/branch_lock.py:161-174 | the loop removes exactly the session's rows whose file name is not hidden, and counts them |
| `BranchLock.AcquireExactly` | cos_lib/branch_lock.py:104-122 | a session gets a lock if and only if it is free, its own, or expired with a PID found dead by the probe paired with that expiry check; it then owns it with its own PID and expiry, and no other lock changes |
| `BranchLock.AcquireWrites` | cos_lib/branch_lock.py:94-128 | the reply and the directory after every `acquire`, field by field: who is blocked and by which row, and the row that anyone else gets, with its acquisition date and its expiry |
| `BranchLock.RenewExtends` | cos_lib/branch_lock.py:131-141 | a renewal is granted exactly to the holder; it sets the expiry to the clock before the write plus the time to live, the renewal date and the time to live, keeps every other field and every other lock, and otherwise only what `holder` removes goes |
| `BranchLock.HolderAndRelease` | cos_lib/branch_lock.py:79-158 | what `holder` returns and removes, and that `release` removes exactly the holder's own row |
| `BranchLock.OwnerStep` | cos_lib/branch_lock.py:79-174 | in one step of any kind an owner keeps its row, rewrites it, or stops owning the lock, and it stops only by its own release (for the sweep, of a name that is not hidden) or by an expiry that has passed together with a PID found dead in a probe that this operation makes |
| `BranchLock.OwnershipEnds` | cos_lib/branch_lock.py:79-174 | over any run, a session that owned a lock and does not at the end lost it at a step that was its own release or a lapse of the last row it wrote; it owned the lock up to that step and not after it |
| `BranchLock.TakeoverSafety` | cos_lib/branch_lock.py:79-158 | over every run with a clock that does not go back, if A acquired a lock and another session later acquires it, then at some step in between A stopped owning it: A's session released it there, or that step made a probe that found the PID in A's last row dead, and the clock and the time to live of A's last write add up to no more than the clock of the takeover |
| `BranchLock.LiveOwnerKeepsLock` | cos_lib/branch_lock.py:79-174 | an owner whose recorded PID stays alive and that does not release still owns the lock at any later time, however long ago the lease expired |
| `BranchLock.LiveOwnerIsRespected` | cos_lib/branch_lock.py:94-174 | meanwhile other sessions' acquires are blocked, its own renew succeeds, and `holder` and other sessions' releases leave its row alone |
| `BranchLock.StaleLockIsFree` | cos_lib/branch_lock.py:85-121 | an expired lock with a dead PID goes to whoever asks, with a fresh acquisition date |
| `BranchLock.TakeoverInheritsDate` | cos_lib/branch_lock.py:107-117 | if the owner dies between the two probes, the session taking over keeps its predecessor's acquisition date |
| `BranchLock.SweepIsComplete` | cos_lib/branch_lock.py:161-174 | after `release_all_for_session` a row is left exactly if it is another session's or its name starts with a dot; rows that are left are unchanged, and the count is that of the rows gone |
| `BranchLock.DotBranchIsHidden` | cos_lib/branch_lock.py:28-34 | the lock of branch ".wip" is hidden, and its session still owns it after its own sweep |
| `BranchLock.SlugIsCanonical` | cos_lib/branch_lock.py:28-34 | every lock-file name is non-empty, made of safe characters, and its own slug |
| `BranchLock.SlugJoinsWords` | cos_lib/branch_lock.py:28-34 | a slug keeps the safe words of a branch and puts one dash for each run of unsafe characters between them |
| `BranchLock.NamelessIsDetached` | cos_lib/branch_lock.py:28-34 | a branch without a safe character has the slug "detached" |
| `BranchLock.SlugsCollide` | cos_lib/branch_lock.py:28-34 | two different branches can share a lock file |
| `ToolPruning.Deduplicate` | cos_lib/context_compressor.py:172-186 | the backward loop with its table of hashes rewrites exactly the long tool outputs that a newer one repeats, and counts them |
| `ToolPruning.Condense` | cos_lib/context_compressor.py:188-203 | the forward loop summarises exactly the bulky outputs before the boundary, and counts them |
| `ToolPruning.PruneToolResults` | cos_lib/context_compressor.py:153-205 | the two passes in order, with the total count |
| `ToolPruning.PruningExactly` | cos_lib/context_compressor.py:153-205 | what becomes of each message: the duplicate line for a tool output of at least 200 characters that a later one repeats, the summary line with call id and size for one of more than 200 before the tail that is no placeholder, and the message itself otherwise |
| `ToolPruning.PruneCountExactly` | cos_lib/context_compressor.py:153-205 | the count returned is the number of messages of these two kinds |
| `ToolPruning.CommasReadBack` | cos_lib/context_compressor.py:202 | the size in a summary line without its commas is the decimal form of the number |
| `ToolPruning.CommasAreSpaced` | cos_lib/context_compressor.py:202 | every fourth character from the right is a comma, and no other |
| `ToolPruning.PruningKeepsStructure` | cos_lib/context_compressor.py:153-205 | length, roles and call ids stay; only long tool outputs change, and in the protected tail only duplicates |
| `ToolPruning.DedupKeepsNewest` | cos_lib/context_compressor.py:172-186 | of all outputs with one hash exactly one keeps that hash, and it is the newest |
| `ToolPruning.PruningIsIdleExactly` | cos_lib/context_compressor.py:153-205 | the pass counts nothing if and only if no long output is repeated and none before the tail is bulky; it changes nothing if and only if none is repeated and each bulky one before the tail is its own summary line; both for every transcript and call id |
| `ToolPruning.PruningIsIdempotentExactly` | cos_lib/context_compressor.py:153-205 | a second pass with the same tail count counts nothing if and only if no line the first pass wrote is longer than 200 characters and none of 200 or more shares its hash with another long output; and it changes nothing if and only if none clashes and each longer one is its own summary line |
| `ToolPruning.PruningIsIdempotent` | cos_lib/context_compressor.py:153-205 | if every summary line has fewer than 200 characters, a second pass with the same tail count changes and counts nothing |
| `ToolPruning.LongIdIsPrunedTwice` | cos_lib/context_compressor.py:198-203 | with a call id of 200 characters the second pass rewrites the line the first one wrote |
| `ToolPruning.ShortIdsMakeShortLines` | cos_lib/context_compressor.py:200-202 | call ids of at most 100 characters keep every summary line under 200 characters |
| `PairRepair.SanitizeToolPairs` | cos_lib/context_compressor.py:343-384 | the loops compute the repaired transcript: orphaned results out, stubs in |
| `PairRepair.AddStubs` | cos_lib/context_compressor.py:366-381 | the nested loops put one stub per missing call right behind its message |
| `PairRepair.RepairIsExact` | cos_lib/context_compressor.py:343-384 | afterwards the non-empty call ids equal the non-empty result ids and no call is lost; taking the stubs out again gives the input without its orphaned results, in order |
| `PairRepair.ResultsPerCall` | cos_lib/context_compressor.py:343-384 | for every call id the number of results afterwards: none if it is not called, one per call if nothing answered it, and as before otherwise |
| `PairRepair.StubsFollowTheirCall` | cos_lib/context_compressor.py:370-380 | every stub has the fixed text and sits behind an assistant message that makes its call, with only stubs between |
| `PairRepair.RepairIsIdempotent` | cos_lib/context_compressor.py:343-384 | a second repair changes nothing |
| `PairRepair.RepairIsIdleExactly` | cos_lib/context_compressor.py:343-384 | repair changes nothing if and only if the called and answered ids already agree |
| `ContextCompressor.FindTailBoundary` | cos_lib/context_compressor.py:509-532 | the backward walk returns the specified boundary |
| `ContextCompressor.TailIsLongestAdmissible` | cos_lib/context_compressor.py:509-532 | the walk keeps the longest suffix after the head that fits the budget or has at most two messages; three are kept if and only if the last three fit the budget; the boundary lies after the head, and within the transcript exactly when the head ends inside it (so the guard at line 441 never fires) |
| `ContextCompressor.TwoMessageTail` | cos_lib/context_compressor.py:523-530 | of five short messages a budget of nothing keeps two |
| `ContextCompressor.Compress` | cos_lib/context_compressor.py:392-506 | the code computes the specified outcome: too short, raised, failed summary, or the assembled transcript |
| `ContextCompressor.CompressionSpelledOut` | cos_lib/context_compressor.py:392-506 | the outcome for every well-formed transcript, message by message: a short one comes back as it is; otherwise the pruned one is cut after the protected messages and the results behind them and at the longest tail within the budget, the summariser gets what lies between and the last summary, and its answer replaces exactly that by one message of the prefix, a newline and the answer, behind the head with its note and before the tail from its first message that is no result |
| `ContextCompressor.SummaryIsKept` | cos_lib/context_compressor.py:464-506 | on every transcript, well-formed or not, an answered summary is returned and stands in the result as the prefix, a newline and the text |
| `ContextCompressor.PlanIsUnique` | cos_lib/context_compressor.py:426-439 | the transcript and the settings determine where it is cut |
| `ContextCompressor.CompressionPreservesWellFormedness` | cos_lib/context_compressor.py:392-506 | from a well-formed transcript the result is the head, the summary and the tail minus its leading run of results (or, when the head is everything, head and summary); it needs no stubs and is well-formed again |
| `ContextCompressor.CompressionShortensExactly` | cos_lib/context_compressor.py:432-506 | the result is no longer than the input if and only if some message after the protected head is not a tool result; otherwise it is one longer |
| `ContextCompressor.CompressionLengthens` | cos_lib/context_compressor.py:432-506 | five calls in the one protected message and their five results are well-formed and come back one message longer, for every summariser that answers |
| `ContextCompressor.RepairDropsRun` | cos_lib/context_compressor.py:492-495 | on a cut well-formed transcript repair drops exactly the run of results at the cut |
| `ContextCompressor.HeadIsVerbatim` | cos_lib/context_compressor.py:468-476 | the head is kept verbatim except that a system message gets the note after its text, once however often compression runs |
| `ContextCompressor.FailureReturnsPruned` | cos_lib/context_compressor.py:456-462 | when the summariser fails the pruned messages come back: the originals if and only if no long output is repeated and each bulky one before the tail is its own summary line, for every transcript whose middle holds no list content |
| `ContextCompressor.FailureLosesOutput` | cos_lib/context_compressor.py:456-462 | an old tool output of 201 characters before four short messages does not come back from a failed summary |
| `ContextCompressor.RaisesExactly` | cos_lib/context_compressor.py:253-263 | a `TypeError` escapes if and only if the middle holds a list content, or the summary arrived and the first message is a system message with one; never when all contents are text |
| `ContextCompressor.ListContentRaises` | cos_lib/context_compressor.py:253-263 | five messages with list contents make a `TypeError` escape, whatever the summariser |
| `ContextCompressor.SummaryRoleAlternates` | cos_lib/context_compressor.py:478-488 | the summary's role never repeats the one before it, and repeats the one at the tail boundary only when user and assistant are taken on either side |
| `ContextCompressor.NeighbourRoleClashes` | cos_lib/context_compressor.py:478-495 | against the message that follows after repair it clashes in exactly two more cases, because the role is chosen before the leading results are dropped |
| `Base64Url.DecodeUndoesEncode` | cos_lib/cosd_grant.py:132-138 | decoding undoes encoding for every byte string, and an encoding holds no padding, no colon and only ASCII |
| `Base64Url.PaddingRestored` | cos_lib/cosd_grant.py:133-137 | the padding the encoder strips is exactly the padding the decoder restores from the length |
| `Base64Url.EncodesInGroups` | cos_lib/cosd_grant.py:133 | the encoding goes through the bytes in groups of three and ends with what is left over |
| `Base64Url.GroupIsOneNumber` | cos_lib/cosd_grant.py:133 | a group is one number, most significant byte first, in four digits of base 64 |
| `Base64Url.AlphabetInOrder` | cos_lib/cosd_grant.py:133 | the digits are those of table 2 of RFC 4648, in order |
| `Base64Url.DecoderIsLenient` | cos_lib/cosd_grant.py:136-138 | the decoder skips any character outside both alphabets and takes the two standard symbols for the URL-safe ones |
| `GrantToken.WireSplits` | cos_lib/cosd_grant.py:190-194 | a token splits at its colons into exactly the version and two parts that decode to payload and signature |
| `GrantToken.IssuedTokenVerifies` | cos_lib/cosd_grant.py:158-315 | verifying an issued token with its key and no store gives back its claims exactly when the time is before expiry and its scope covers the required one; it raises exactly when the resources clash before expiry, and names the failure otherwise; scope values are any JSON |
| `GrantToken.IssuedExactly` | cos_lib/cosd_grant.py:168-194 | issuing is refused exactly without a positive life, an op or a resource; the token holds the version, the payload and its code |
| `GrantToken.IssuedTokenCovers` | cos_lib/cosd_grant.py:211-232 | an issued token whose resource is text is accepted before its expiry if and only if the ops are equal, its resource is "*", the required one or a beginning of it, and every other required field has its value in the scope |
| `GrantToken.IssuedTokenCoversValue` | cos_lib/cosd_grant.py:211-232 | one whose resource is any other value covers only an equal resource, and raises exactly on a text with an equal op |
| `GrantToken.IssuedTokenIsSafeExactly` | cos_lib/cosd_grant.py:168-173 | an issued token can be verified against every required scope at any time without raising if and only if the resource in its scope is text, which `issue_token` does not check |
| `GrantToken.NumericResourceRaises` | cos_lib/cosd_grant.py:222-226 | a token issued for resource 5 raises when it is verified against resource "a" before its expiry |
| `GrantToken.OtherKeyIsTampering` | cos_lib/cosd_grant.py:269-273 | under another key the token counts as tampered unless the codes collide |
| `GrantToken.ScopeMatchingComposesExactly` | cos_lib/cosd_grant.py:211-232 | scope matching is reflexive; if a covers b and b covers c then a covers c, except exactly when a wildcard b stands below an empty prefix a over a c that is no text, or c requires null for a field that b lacks and a has |
| `GrantToken.ScopeMatchingIsNotTransitive` | cos_lib/cosd_grant.py:211-232 | three scopes for each of the two exceptions |
| `GrantToken.RaisesExactly` | cos_lib/cosd_grant.py:275-294 | for every token string and every required scope, verification raises if and only if the token has three parts of the right version that decode, the signature is right, and the payload makes the JSON decoder fail other than by a decoding error, or is complete and has a time that is no integer, or is complete and before its expiry has the required op and a resource that is no text where text is required |
| `GrantToken.VerdictsExactly` | cos_lib/cosd_grant.py:259-294 | for every token string, when it is malformed and when it counts as tampered with |
| `GrantToken.SignedVerdict` | cos_lib/cosd_grant.py:275-315 | for every rightly signed and complete payload, when it counts as expired, and that the claims accepted are those of the payload |
| `GrantToken.VerifyToken` | cos_lib/cosd_grant.py:235-315 | the verdict and the store's new table, for a given store or none |
| `GrantToken.ReplayExactly` | cos_lib/cosd_grant.py:296-313 | with a store an otherwise accepted token is a replay exactly when its nonce is in the table or SQLite cannot hold its expiry |
| `GrantToken.RejectionAddsNothing` | cos_lib/cosd_grant.py:296-313 | a verification that is not accepted leaves the table as it was |
| `GrantToken.AcceptedIsRemembered` | cos_lib/cosd_grant.py:306-315 | from its acceptance on, a nonce is in the table or its expiry has passed, whatever was evicted |
| `GrantToken.SecondAcceptanceExpiresLater` | cos_lib/cosd_grant.py:296-313 | if a nonce is accepted twice, the first token had expired by then and the second expires later |
| `GrantToken.AcceptedAtMostOnce` | cos_lib/cosd_grant.py:296-313 | over any run with a clock that does not go back, a payload is accepted at most once, even if its token is spelled differently |
| `NonceStore.GrantNonceStore.constructor` | cos_lib/cosd_grant_store.py:35-57 | a new store has no rows |
| `NonceStore.GrantNonceStore.MarkSeen` | cos_lib/cosd_grant_store.py:61-71 | refuses a known nonce or an expiry SQLite cannot hold; otherwise inserts the row and evicts expired ones past half the maximum |
| `NonceStore.GrantNonceStore.EvictExpired` | cos_lib/cosd_grant_store.py:81-84 | a row is left if and only if its expiry is later than now, with its expiry unchanged, and the number returned is that of the rows that have expired |
| `NonceStore.MarkExactly` | cos_lib/cosd_grant_store.py:61-99 | the answer for every nonce and expiry, and row by row the table afterwards: the old rows and the new one, or past half the maximum those of them that have not expired |
| `NonceStore.RowsOnlyExpire` | cos_lib/cosd_grant_store.py:61-99 | marking evicts no row before its expiry and adds no row but the new one, which stays if it has not expired |
| `NonceStore.MaxRowsHoldsExactly` | cos_lib/cosd_grant_store.py:61-99 | after an insertion there are at most `max_rows` rows if and only if the unexpired ones, with the new one, are that few |
| `NonceStore.MaxRowsIsNoBound` | cos_lib/cosd_grant_store.py:61-99 | for every maximum and every m there is a run of m insertions from the empty table that leaves m rows |
| `CircuitBreaker.Breaker.constructor` | cos_lib/circuit_breaker.py:71-87 | a new breaker holds what its state file holds |
| `CircuitBreaker.Breaker.RecordFailure` | cos_lib/circuit_breaker.py:93-109 | the new memory and file after a failure |
| `CircuitBreaker.Breaker.RecordSuccess` | cos_lib/circuit_breaker.py:111-123 | the new memory and file after a success |
| `CircuitBreaker.Breaker.CanLaunch` | cos_lib/circuit_breaker.py:125-150 | the answer, and the move to half-open that it saves |
| `CircuitBreaker.Breaker.GetOrCreate` | cos_lib/circuit_breaker.py:175-185 | creates a closed circuit in memory only |
| `CircuitBreaker.RunReflectsHistory` | cos_lib/circuit_breaker.py:93-150 | after any run the circuit's count, state and opening date are those of the failures since the last success, and the file agrees with memory |
| `CircuitBreaker.CircuitExactly` | cos_lib/circuit_breaker.py:93-150 | every field of a circuit from the history alone: its state, the length of the failure run, the date of the last failure, and the date of the failure that reached the threshold |
| `CircuitBreaker.BreakerIsItsHistory` | cos_lib/circuit_breaker.py:93-150 | a launch is allowed if and only if fewer than threshold failures (at least one) followed the last success, or the cooldown has elapsed since the failure that reached the threshold; probes, restarts and other tasks play no part |
| `CircuitBreaker.CooldownIsNotRenewed` | cos_lib/circuit_breaker.py:103-106 | once an opened circuit may launch, the breaker lets it launch at any later time, whatever happens in between, up to the next success: failed probes renew nothing |
| `CircuitBreaker.FailedProbeLaunchesAgain` | cos_lib/circuit_breaker.py:93-150 | with a threshold of one, a probe that fails at the end of the cooldown may be followed by the next launch at once |
| `CircuitBreaker.RestartIsTransparent` | cos_lib/circuit_breaker.py:175-208 | replacing the breaker at any point by one loaded from its state file changes no later answer, from any initial file and under any clock |
| `ConsequenceEngine.Engine.History` | cos_lib/consequence_engine.py:383-398 | the loop collects the agent's last records, with Python's slicing for any count |
| `ConsequenceEngine.Engine.CountConsecutiveLow` | cos_lib/consequence_engine.py:295-306 | the backward loop counts the low scores at the end of the ten-record window |
| `ConsequenceEngine.Engine.Evaluate` | cos_lib/consequence_engine.py:202-293 | appends the record and returns the verdict on the agent's scores |
| `ConsequenceEngine.Engine.Apply` | cos_lib/consequence_engine.py:310-363 | appends the row that goes with the verdict, or none; for a degradation with the downgrade it suggests |
| `ConsequenceEngine.Engine.SuggestModelDowngrade` | cos_lib/consequence_engine.py:365-379 | the note with the next cheaper model of a known name, or of the first family named in an unknown one |
| `ConsequenceEngine.Engine.GetDisabledSkills` | cos_lib/consequence_engine.py:400-421 | the forward loop over an insertion-ordered dictionary computes the list of disabled skills with their reasons and dates |
| `ConsequenceEngine.Engine.ReEnable` | cos_lib/consequence_engine.py:487-503 | succeeds exactly for a disabled skill, and only then appends its row |
| `ConsequenceEngine.Engine.GetModelOverride` | cos_lib/consequence_engine.py:516-554 | the backward walk finds an override exactly when a forward fold of the log has one, and the same tier |
| `ConsequenceEngine.RescanEqualsCounters` | cos_lib/consequence_engine.py:202-306 | on any interleaved log and for any thresholds, the rescanned verdict is that of per-agent counters kept by one pass over the log |
| `ConsequenceEngine.VerdictExactly` | cos_lib/consequence_engine.py:202-293 | for any thresholds with a positive streak, the verdict from the scores alone, with a disabling only up to a limit of ten |
| `ConsequenceEngine.HistoryLength` | cos_lib/consequence_engine.py:383-398 | how many scores the slice has for every count, and that they are the last ones |
| `ConsequenceEngine.OthersAreInvisible` | cos_lib/consequence_engine.py:383-398 | rows of other agents and action rows can be inserted anywhere without changing the scores a verdict is computed from |
| `ConsequenceEngine.PromotionCounts` | cos_lib/consequence_engine.py:223-230 | the two slices of the promotion check amount to a high run of the required length, also for streaks below one |
| `ConsequenceEngine.DefaultLadder` | cos_lib/consequence_engine.py:9-13 | with the default thresholds: five scores of at least 85 in a row promote, one below 60 warns, two degrade and three disable, and nothing else does |
| `ConsequenceEngine.DisablingIsAnEscalation` | cos_lib/consequence_engine.py:259-293 | with at least three failures required, DISABLE only follows DEGRADE or DISABLE on the agent's previous record |
| `ConsequenceEngine.DisablingIsReachableExactly` | cos_lib/consequence_engine.py:264-306 | DISABLE is reachable if and only if the limit is at most ten |
| `ConsequenceEngine.DisabledExactly` | cos_lib/consequence_engine.py:400-421 | a skill is listed as disabled, once, if and only if its last disable or re-enable row is a disable, and then with that row's reason and date |
| `ConsequenceEngine.DisabledInOrder` | cos_lib/consequence_engine.py:400-421 | disabled skills are listed in the order in which they were first disabled since their last re-enabling |
| `ConsequenceEngine.DowngradedExactly` | cos_lib/consequence_engine.py:531-554 | an override is in force if and only if the last degradation, promotion or re-enable row is a degradation, and it is read from that row |
| `ConsequenceEngine.ApplyStands` | cos_lib/consequence_engine.py:310-363 | what an applied verdict changes: a disabling lists its target with the given reason and date unless it is listed, a degradation puts the suggested downgrade in force, a promotion appends its row and lifts the override, the others append nothing; and nothing changes for other targets |
| `ConsequenceEngine.ReEnableClears` | cos_lib/consequence_engine.py:487-554 | a re-enable clears the skill's disabling and its override, and nothing else |
| `ModelDowngrade.ForcedTierExactly` | cos_lib/consequence_engine.py:536-549 | the tier read back from the note of a degradation is sonnet if the name in the note contains "opus" and haiku otherwise; it is the tier of the model the note suggests if and only if that model is the sonnet one for a name with "opus" or the haiku one for another; known names hold no ">" |
| `ModelDowngrade.SuggestionExactly` | cos_lib/consequence_engine.py:365-379 | a known name is suggested the model just before its own in the chain of four, an unknown one the model below the first family named in it, and the note names both |
| `ModelDowngrade.FableIsForcedTooLow` | cos_lib/model_catalog.py:75-85 | the opus model known as "fable" is suggested the sonnet model and forced to haiku |
| `CheckpointRetention.SortNewestFirst` | cos_lib/checkpoint_manager.py:428-433 | lists the whole directory newest first, ties broken by id |
| `CheckpointRetention.Partition` | cos_lib/checkpoint_manager.py:435-456 | the three filters split the listing into what is kept and, without repetition, what is removed |
| `CheckpointRetention.WithinBudget` | cos_lib/checkpoint_manager.py:445-456 | the accumulating loop stops at the specified position |
| `CheckpointRetention.CheckpointStore.Delete` | cos_lib/checkpoint_manager.py:458-478 | removes exactly the given checkpoints and counts each once |
| `CheckpointRetention.CheckpointStore.Cleanup` | cos_lib/checkpoint_manager.py:371-478 | the directory afterwards holds exactly the retained checkpoints, and the count is the number of the others |
| `CheckpointRetention.OrderingIsUnique` | cos_lib/checkpoint_manager.py:431-433 | the ordering is determined by the directory, so what is kept does not depend on the listing order |
| `CheckpointRetention.LessExactly` | cos_lib/checkpoint_manager.py:431-433 | ids are compared as Python compares strings: by the first difference, and a beginning comes first |
| `CheckpointRetention.RetentionKeepsNewest` | cos_lib/checkpoint_manager.py:435-456 | what is kept is the longest newest-first prefix that `keep_last` allows (all but the last few, if it is negative), that holds no checkpoint older than the given days of 86400 seconds each, and whose sizes fit the budget or which is the newest alone |
| `CheckpointRetention.RetentionIsDownwardClosed` | cos_lib/checkpoint_manager.py:435-456 | anything newer than a kept checkpoint is kept; at most `keep_last` are kept; the sizes kept exceed the budget in mebibytes only if the newest alone does |
| `CheckpointRetention.RetentionIsIdempotentExactly` | cos_lib/checkpoint_manager.py:371-478 | running it again at the same time removes nothing if and only if `keep_last` is not negative or nothing was left |
| `CheckpointRetention.NegativeKeepLastDropsAgain` | cos_lib/checkpoint_manager.py:435-456 | with `keep_last` -1 and two checkpoints the first run keeps one and the second none |
| `CheckpointRetention.NewestMayExceedBudget` | cos_lib/checkpoint_manager.py:445-456 | a single checkpoint of one byte is kept under a budget of zero |
| `YamlText.StripComment` | yaml.py:38-48 | the loop cuts at the first `#` outside quotes |
| `YamlText.CommentIsCut` | yaml.py:38-48 | behind any sequence of plain stretches and closed quotes a `#` and all behind it go, with the white space before it; without one only the white space goes |
| `YamlText.Preprocess` | yaml.py:87-126 | the loop skips blank lines, turns block scalars into one quoted line, joins continuation lines to the line before and keeps the rest with its indentation |
| `YamlText.ReadBlock` | yaml.py:99-119 | the inner loop collects a block scalar's lines up to the first that is not indented deeper, without the indentation of its first |
| `YamlText.BlockExactly` | yaml.py:99-119 | where every block scalar ends, and its parts: blank lines empty, other lines without the indentation of the first |
| `YamlText.BlockIsQuoted` | yaml.py:117-119 | the line it becomes: literal parts joined by newlines, folded ones trimmed and joined by spaces, and quoted |
| `YamlText.LiteralNewlineIsLost` | yaml.py:74-75 | the newline of a literal block of two lines comes back as a backslash and an "n" |
| `YamlText.ContinuationIsJoined` | yaml.py:120-122 | a line that is neither a key nor an item is joined to the one before it by a space |
| `YamlText.CommentsAreIgnored` | yaml.py:87-126 | comments behind lines whose quotes are closed, and lines with only spaces or a comment, make no difference |
| `YamlText.SplitUndoesUnlines` | yaml.py:88 | splitting at any line break gives back lines that were ended by newlines and hold no break themselves |
| `YamlText.NeatLinesAreKept` | yaml.py:87-126 | lines that need no rewriting pass through preprocessing unchanged |
| `YamlText.NumeralReadsBack` | yaml.py:50-85 | the decimal form of every integer is read back as that integer |
| `YamlText.WordsAreRead` | yaml.py:50-60 | null, none, ~, true and false are read as such in any case and with white space around them |
| `YamlText.QuotedIsRead` | yaml.py:74-77 | any text between double quotes is read back once its backslashes are doubled, and between single quotes as it is |
| `YamlText.PlainWordIsRead` | yaml.py:78-85 | a text of no other kind is read as itself |
| `YamlText.FlowIsRead` | yaml.py:61-73 | anything between brackets or braces goes to the flow reader |
| `YamlScalars.AtomIsRead` | yaml.py:50-85 | null, true, false, every integer, plain words and quoted texts come back as the values they were |
| `YamlLoader.Loader.constructor` | yaml.py:140-141 | the root is a list or a dictionary by the first line, at indentation -1 |
| `YamlLoader.Loader.ParentFor` | yaml.py:143-151 | the popping loops leave the line's parent on top |
| `YamlLoader.Loader.Item` | yaml.py:156-173 | what a list item does to its list, the heap and the stack, with a frame for an entry whose value is a flow collection |
| `YamlLoader.Loader.Key` | yaml.py:177-186 | what a key line does to its parent, the heap and the stack, with a frame for a flow collection |
| `YamlLoader.Loader.ParseLine` | yaml.py:153-186 | one line, with its error cases |
| `YamlLoader.ParseLines` | yaml.py:140-187 | the loop over the lines with one line of look-ahead computes the specified document |
| `YamlLoader.SafeLoad` | yaml.py:128-187 | from the text on: byte order marks, blank text, the attempt at JSON, splitting, preprocessing and parsing in order |
| `YamlLoader.IndentationIsNeverInvalid` | yaml.py:149-150 | "invalid indentation" is never reported, on any lines |
| `YamlLoader.LoadFailsOnlyOnItems` | yaml.py:133-187 | loading any text fails only on a list item under something that is no list |
| `YamlRoundTrip.LoadUndoesPrint` | yaml.py:128-187 | for every non-empty tree of mappings, of lists of scalars and of mappings that begin with a scalar, and of scalars in any spelling that is read back, printed two spaces a level with list items one level deeper, the loader builds that tree, keys in order, with every empty list an empty mapping; so it rebuilds exactly the tree if and only if no list in it is empty |
| `YamlRoundTrip.LoadUndoesPrintedText` | yaml.py:87-187 | the same for the one printed text, through the byte order mark, the attempt at JSON (which takes no text with a colon unless it ends in a bracket or quote), line splitting and preprocessing; keys hold no line break and the first does not begin with a byte order mark |
| `YamlRoundTrip.StandardTextLoads` | yaml.py:50-187 | the same where null, true, false, integers, words and other texts are printed as `null`, `true`, `false`, in decimal, as they are and in double quotes |
| `YamlRoundTrip.CommentedTextLoadsAlike` | yaml.py:87-187 | comments behind the printed lines, and blank lines and comments between them, do not change what is loaded |
| `YamlRoundTrip.LeadingMarkIsLost` | yaml.py:130 | a byte order mark at the front of the first key is lost |
| `YamlRoundTrip.StandsIsUnique` | yaml.py:128-187 | the loaded containers stand for one tree only |
| `YamlRoundTrip.EmptiedPrintsAlike` | yaml.py:155-180 | a tree prints the same with every empty list made an empty mapping |
| `YamlRoundTrip.NextKeyIsSwallowed` | yaml.py:164-186 | when the first value of a list item is a mapping, the item's next key lands in that mapping |
| `YamlRoundTrip.FlowUnderKeyIsOpen` | yaml.py:175-186 | a flow collection behind a key is the key's value, and deeper lines go into it |
| `YamlRoundTrip.FlowItemIsClosed` | yaml.py:172-173 | one that is an item joins its list, and deeper lines do not go into it |
| `YamlRoundTrip.FlowInItemIsOpen` | yaml.py:164-171 | one behind the first key of an item is open one column deeper than the item's mapping |
| `YamlRoundTrip.KeyUnderListIsAppended` | yaml.py:181-184 | a key directly under a list becomes a mapping of its own in it |
| `YamlRoundTrip.PutReplaces` | yaml.py:181-182 | a key that comes again keeps its place and gets the later value |
| `TopKMerge.SearchSource` | cos_lib/context_injector.py:160-172 | a source keeps the items that reach its threshold, rounded, and of these its best |
| `TopKMerge.ScoredExactly` | cos_lib/context_injector.py:160-172 | kept are exactly the items whose similarity before rounding reaches the threshold, in their order, with the rounded similarity as score |
| `TopKMerge.SortIsStable` | cos_lib/context_injector.py:171-172 | the sort ranks the matches and leaves those of equal score in their order |
| `TopKMerge.BuildMatches` | cos_lib/context_injector.py:475-503 | the loops concatenate, de-duplicate by path and cut to the best |
| `TopKMerge.MergeIsBestPerPath` | cos_lib/context_injector.py:497-503 | for every score x, the results of at least x are the first so many, as many as there are paths with such a match, up to k |
| `TopKMerge.MergeShowsBest` | cos_lib/context_injector.py:497-503 | each result is a given match and no match with its path scores better |
| `TopKMerge.MergeShowsFirstBest` | cos_lib/context_injector.py:497-503 | of several best matches of a path the first is shown |
| `TopKMerge.DedupInOrder` | cos_lib/context_injector.py:497-500 | the dictionary lists the paths in the order in which they first came up |
| `TopKMerge.MergeLength` | cos_lib/context_injector.py:497-503 | there is one result per path, up to k |
| `TopKMerge.SortKeepsRanking` | cos_lib/context_injector.py:171-172 | the sort is stable: what is ranked already stays as it is |
| `TopKMerge.TopKPushdown` | cos_lib/context_injector.py:475-503 | if cutting each source to its k best keeps k paths or all paths of that source, as it does when no path repeats in it, then cutting early gives the same scores in the same order as merging everything |
| `TopKMerge.PushdownExactly` | cos_lib/context_injector.py:475-503 | cutting early gives the same scores in the same order if and only if after the cut each match has its own path left at its score or better, or k paths are |
| `TopKMerge.SelectionsPushDownExactly` | cos_lib/context_injector.py:475-503 | every selection of the sources can be cut early if and only if each source keeps k paths or all of its paths under the cut |
| `TopKMerge.RepeatedPathsBreakPushdown` | cos_lib/context_injector.py:353-361 | three debt rows of which two have the same path: with k = 2 the early cut leaves one result and merging everything two |
| `TailReader.ParseLines` | cos_lib/agent_output_monitor.py:94-140 | the loops count tool calls and remember the last marker and text; an exception escapes exactly on a line of JSON that is no object, whose message is none, or that holds a text which is no string |
| `TailReader.CountToolCalls` | cos_lib/agent_output_monitor.py:283-305 | the full scan counts all tool calls and skips JSON that is no object |
| `TailReader.ToolUsesExactly` | cos_lib/agent_output_monitor.py:121-126 | the count is the number of blocks that are tool calls |
| `TailReader.LastMarkerExactly` | cos_lib/agent_output_monitor.py:127-134 | the marker remembered is that of the last block that has one |
| `TailReader.LastTextExactly` | cos_lib/agent_output_monitor.py:136-138 | the text remembered is the last 100 characters of the texts of the last line with any, joined by spaces |
| `TailReader.ReadTailIsSuffix` | cos_lib/agent_output_monitor.py:75-91 | the tail holds exactly the non-blank lines that start strictly after the read offset, and all of them if the file fits |
| `TailReader.TailEndsWhole` | cos_lib/agent_output_monitor.py:61-91 | without carriage returns the tail is the end of what a full scan sees |
| `TailReader.TailAgreesWithWhole` | cos_lib/agent_output_monitor.py:61-140 | the tail's tool count never exceeds the full one, and its last marker and text are the full scan's whenever the window holds one |
| `TailReader.StatusFromFile` | cos_lib/agent_output_monitor.py:241-281 | the status holds the tail's last marker and text and the larger of the two counts, and raises exactly when one of the scans does; in a file without carriage returns the count is that of the whole file |

## Left out

- TakeoverSafety: everything under the flock is one step, as is `holder`; file-system races outside the flock, `is_held_by_other` and malformed lock files are not modelled.
- SlugIsCanonical: the global lock file's own name is reachable as a slug; that clash is not modelled.
- PruneToolResults: the hash is an arbitrary function, so nothing is said about collisions.
- Compress: redaction, prompts and token logging are left out; floats in the two ratio products are real numbers.
- VerifyToken: audit rows are not written and each call is one step; a NaN in a scope, which is not equal to itself, key generation and storage are left out.
- IssuedTokenVerifies: holds for a codec that reads back what it wrote; nothing is claimed about JSON itself.
- AcceptedAtMostOnce: the clock the store reads is never before the one the verification read, and calls do not overlap.
- Evaluate: only agent and score of a record are kept; scores that are not numbers are left out.
- Cleanup: scanning the directory, failed deletions and the sizes of payload trees are inputs or left out.
- SafeLoad: what lies inside a flow collection is not looked into, and its keys are strings; decoding of a stream, PyYAML delegation and newer Pythons' limit on the length of integer numerals are left out.
- LoadUndoesPrint: a list item that is a list, or a mapping that begins with a collection, is not printed; the latter would not come back (`NextKeyIsSwallowed`).
- TopKPushdown: `k` is not negative; ties may be resolved differently, so only scores are compared.
- BuildMatches: the embedding search, the on-disk cache, formatting and metrics are left out.
- ReadTailIsSuffix: decoding happens line by line inside the line parser; a blank line holds no JSON.
- StatusFromFile: the status word and progress fields, which depend on the clock and a regular expression, are left out.
- CircuitBreaker: several breakers sharing one state file, and corrupt files, are left out.
- Report formatting, dashboards, stash creation and restore, and all other files of the repository are left out: they are regular-expression tables, input and output, or rules of one branch.
