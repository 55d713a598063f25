# A verified model of architecturekit

architecturekit builds applications on an event store: commands decide on a state that is
folded from the events of a subject and append events under preconditions, and projections
turn the events into read models. This project states in Dafny what the core of the kit
does, in the form the code has it, and proves the properties the kit is for. Paths below
are relative to the root of the repository. Nothing was executed: the statements are about
the model, which follows the code branch by branch.

The files, from the ground up:

- **Writing.** `Revisions`, `EventLog`, `Failures`, `Upcasting` and `StateRules` define event
  IDs, the log, the categories of failures, upcasting and folding. `StateCaching` is the cache of
  states with its least-recently-used list, `Preconditions` what a command declares and what the
  database checks. `WriteProtocol` is a state machine of any number of `Execute` calls that
  share one cache, one log, foreign writers and a database that fails but tells the truth;
  `WriteSafety` proves its invariant and what follows in every run. `Store` is the same
  protocol as code: `fold`, `executeOnce` and `Execute` with their loops, while others write
  between any two calls of the database. `CachedReads` compares reading on from a cached state
  with reading anew.
- **Projecting.** `ProjectionWriters` says what each of the three writers holds, `Backoff` how
  long a run waits, and `ProjectionDriver` is `drive`, `catchUp`, `follow` and `run` as code
  against a script of moments, at each of which others may write, a call may fail with or
  without effect, the context may end, or the process may die. `ProjectionRuns` is the status
  of a run and `WaitCaughtUp`, `ReadYourWrites` is `Tracking`, `Seen` and `WaitFor`.
- **Views.** `ViewModel` is what a view means: items in an order, each with the event and part it
  was last changed by. `ViewStorage` and `InMemoryViews` are the map, the order list with its
  tombstones, the positions, the compaction and the secondary indexes, each method proved to
  do what the meaning says. `ViewEffects` says what that means for a view as a map from keys to
  items, and `ViewHistory` and `TypedProjections` prove what holds after every sequence of
  operations, which operations an event leads to, and what happens when it is handed over again.
- **Comparing and describing.** `GraphEquality` is `isSame` on cyclic heaps, and `GraphPaths` says
  what it takes to tell two of them apart. `SpellTexts`, `SpellTrees`, `SpellInterfaces`,
  `SpellNames` and `SpellOut` are `spellOut`. `Schemas` and `SchemaDerivation` derive JSON schemas,
  `SchemaShapes` says which JSON they accept, and `SchemaSoundness` and `SchemaMisfits` what that
  means for what is written for a value and a type. `SubjectSchemes` builds and matches subjects,
  and `EntityTags` reads `If-None-Match`.

What the theorems assume of an application is what the kit's documentation demands: states of
one type that look alike compute alike (`EqualShapesMeanEqualRules`), the rule of `FromLatest`
ignores the state before it (`IgnoresPast`), and `RevisionIn` does not touch the key
(`MarkKeepsKey`). What `TypedProjections` says of an event that is handed over again assumes that
its upcasters keep its ID (`PartsOf`), and `AppliedAgainExactly` and `AppliedAgainChangesNothing`
that the event and the later ones apply without an error the first time. Of the database they assume that its IDs ascend and that its client is
truthful: a refusal stored nothing, and an unknown outcome may have stored all or nothing.

## Where the code and its documentation differ

The model follows the code. Each of these is stated as a lemma.

- A reconnect delay is documented as doubled up to the maximum. From a maximum of 2^62
  nanoseconds on, doubling overflows the 64-bit duration (`Backoff.DelaysAreAsDocumented` says
  exactly when).
- The attempts of a run to read again, and their delays, are documented to start over once the
  projection has applied an event or has been live for longer than the initial delay. The run
  compares the checkpoints before and after a session instead, and takes a call that fails for an
  empty answer. So it starts over as documented if both calls are answered
  (`ProjectionDriver.HealthIsAsDocumentedIfAnswered`, in both directions), as they always are for a
  rebuilt projection, and for a resumable one behind the first event that its run has applied
  (`ProjectionDriver.HealthIsAsDocumentedInMemory`). If one of them fails, it starts over exactly if
  the other one names an event (`ProjectionDriver.AnswersDiffer`). A transactional projection the
  checkpoint of which is answered only after each session starts over with every attempt and never
  waits longer, although it applies nothing (`ProjectionDriver.Driver.StartOverAnew`).
- A cached fold goes on from the last event that was read, so it fails at an event that a fresh
  read starting `FromLatest` skips: one without a rule
  (`StateRules.UnruledEventTellsCachedFromFresh`), or one that does not verify
  (`CachedReads.UnverifiedEventTellsCachedFromFresh`). `CachedReads.ReadOnExactly` gives the outcome
  in every case. `CachedReads.ReadOnFailsExactly` says that an event between the cached one and the
  latest of the type that is not verified, or that no rule can take, always makes it fail, and
  that nothing else does where a fresh read succeeds, as long as no rule refuses an event itself.
- Two texts of `spellOut` are said to differ exactly if the values do. Values of one type with
  something in an interface may share a text, since the name of its type and the value run
  together: the `int` 83 and the `int8` 3 in an `any`. The texts of a type tell its values exactly
  if it has no interface where a value can have a part
  (`SpellInterfaces.TextsTellValuesExactly`). At the top, too, the type's name and the value run
  together, so that `spellOut` writes the `int` 83 and the `int8` 3 alike
  (`SpellOut.NamesMayRunTogether`). It takes two types of which one continues the name of the other
  (`SpellOut.NamesTellTypes`), and then `SpellNames.NamesCollideExactly` says when two values
  collide. If the one name goes on with something, only numbers and floats do, and
  `SpellNames.NumbersCollideExactly` says for which types of whole numbers, with their ranges. Types
  with one and the same name, as in packages whose paths end alike, share the texts of whatever
  values they share, structs as well (`SpellNames.OneNameTellsNoTypes`). It is also said to refuse what contains itself; it refuses a little more, since
  it remembers addresses only (`SpellOut.FirstFieldIsRefused`), and
  `SpellOut.RefusedExactlyIfBlocked` says exactly what.
- A derived schema is said to describe exactly what encoding/json writes. An optional field loses
  `null`, since nil is said to be left out, but it is written as `null` in a field of an embedded
  pointer that is not nil itself, and for `omitzero` on a slice or a map whose own `IsZero` says
  that nil is not zero. Unless what the field may be besides nil can be `null` as well, or a schema
  of its own allows it, the schema then refuses the value, which concerns quoted pointers, too
  (`SchemaMisfits.OneFieldIsRefusedExactly` for concrete structs). And an interface that declares
  `MarshalText` is described as a string, while its nil is written as `null`, also where nothing is
  optional (`SchemaMisfits.NilTextIsRefused`). `SchemaMisfits.DerivedSchemaIsSoundExactly` says for
  which values, and for which types, the schema holds.
- Applying a stored event again is said to change nothing as long as the items it is about are
  still there. That holds exactly as long as every item it may add is there
  (`TypedProjections.AppliedAgainExactly`). A removed item comes back
  (`TypedProjections.RemovedItemComesBack`), and an event that is split, a part of which removes
  what an earlier part has upserted, may leave another view the second time
  (`TypedProjections.OwnRemovalIsNotRepeated`).

## Model

| member | source | states |
|---|---|---|
| Revisions.ParseRevision | architecturekit/revision.go:211-218 | a revision that is accepted is within the signed 64-bit range the database numbers events with |
| Revisions.DecimalRoundTrip | architecturekit/revision.go:211-218 | reading back the decimal text of an ID yields the ID |
| Revisions.ComparesAsNumbers | architecturekit/revision.go:155-181 | comparing two event IDs compares their numbers, not their texts, and the empty revision is before every ID |
| Revisions.ComparisonIsTotalPreorder | architecturekit/revision.go:155-181 | among revisions the comparison is total and transitive, and two that compare equal have the same number |
| Revisions.RevisionOf | architecturekit/revision.go:223-233 | the result is one of the given IDs that every other one that is a revision reaches no further than, or empty if none is a revision |
| EventLog.StreamGrows | architecturekit/store.go:368-448 | appending to the log only extends the stream of every subject |
| EventLog.AfterPrefix | architecturekit/store.go:368-448 | reading with the ID of the n-th event as exclusive bound hands out exactly what follows it |
| EventLog.LastIdNamesPrefix | architecturekit/store.go:368-448 | the ID of the last event read names exactly which events were read |
| Failures.DatabaseFailure | architecturekit/database_failure.go:200-245 | every failure of a request gets a category that promises that nothing was stored: a conflict, with the answer it wraps, exactly if the answer says that a precondition did not hold, transient exactly if the failure may pass, and permanent otherwise |
| Failures.WriteFailure | architecturekit/database_failure.go:106-117 | a failed write has a category exactly if the client is certain that it stored nothing, and ErrOutcomeUnknown otherwise |
| Upcasting.ApplyWithBudget | architecturekit/upcast.go:73-102 | the recursion with its appending loop yields what upcasting every produced event in turn yields, or the first failure |
| Upcasting.UpcastIsComplete | architecturekit/upcast.go:65-102 | what comes out needs no further upcasting |
| Upcasting.UpcastsInOrder | architecturekit/upcast.go:92-99 | upcasting several events yields what each of them yields, one behind the other, in their order and with nothing left out |
| Upcasting.UpcastsItsParts | architecturekit/upcast.go:73-102 | an event without an upcaster is kept, and for any other one everything its upcaster makes of it is upcasted, in order |
| Upcasting.UpcastNeedsAll | architecturekit/upcast.go:92-97 | one event that can not be upcasted makes all of it fail |
| Upcasting.BudgetOnlyBounds | architecturekit/upcast.go:65-102 | a larger budget of steps never changes what a chain that ends yields |
| Upcasting.EndlessChainFails | architecturekit/upcast.go:73-102 | an upcaster that keeps its own event type makes reading fail, whatever the budget |
| StateRules.EvolveByStored | architecturekit/state.go:552-572 | one stored event is upcasted and every resulting event applied by its rule, in order, up to the first error |
| StateRules.EvolveAppend | architecturekit/state.go:558-569 | what is upcasted from one event is applied part by part: all of it is the later parts on the outcome of the earlier ones |
| StateRules.EvolveOne | architecturekit/state.go:559-567 | one upcasted event is applied by the rule for its type, to the state and its data, and fails without a rule |
| StateRules.EvolvesInOrder | architecturekit/state.go:558-569 | the outcome is the last of the states that the events lead to, each by its own rule from the state before, from the first event to the last |
| StateRules.StepsInOrder | architecturekit/state.go:552-572 | a stored event folds to a state exactly if the events its upcasters make of it lead there, in their order |
| StateRules.StepOfParts | architecturekit/state.go:552-572 | an event that is split is folded by its first parts, and then by the others |
| StateRules.SkipToLatest | architecturekit/state.go:423-446 | the search from the end keeps exactly the events from the latest one of the type on, or all of them |
| StateRules.ReplayStored | architecturekit/state.go:451-477 | replaying stored events builds what reading them from the database would, and refuses a state that shares its initial value |
| StateRules.RuleIgnoresPast | architecturekit/state.go:240-253 | a rule that does not depend on the state before it, for a type without an upcaster, meets what FromLatest demands |
| StateRules.ResumeExactly | architecturekit/store.go:368-448 | folding on from a prefix's state gives exactly what reading anew gives, except where it fails before the latest event of the type |
| StateRules.ResumeSound | architecturekit/store.go:401-430 | a fold that goes on from the state of a prefix and succeeds has built the state of the whole stream |
| StateRules.FromLatestIsFromFirst | architecturekit/state.go:240-253 | if all events fold, starting from the latest event of a type yields the state of folding from the first event |
| StateRules.UnruledEventTellsCachedFromFresh | architecturekit/store.go:401-430 | there is a stream that a cached fold fails on and a fresh FromLatest read does not |
| StateCaching.StateCache.constructor | architecturekit/state_cache.go:209-215 | a new cache is empty, and its map and list agree |
| StateCaching.StateCache.GetEntry | architecturekit/state_cache.go:217-229 | a lookup hands out the entry and makes it the most recently used one, and changes nothing else |
| StateCaching.StateCache.PutState | architecturekit/state_cache.go:237-267 | a put in place ends in the cache that the specification puts together, with map and list in bijection |
| StateCaching.GetKeeps | architecturekit/state_cache.go:217-229 | a lookup keeps the bijection and every entry |
| StateCaching.PutKeeps | architecturekit/state_cache.go:237-267 | a put keeps the bijection and the bound, never moves an entry's event ID backwards, and evicts at most the least recently used entry of a full cache |
| StateCaching.FoundAfterPut | architecturekit/state_cache.go:237-267 | after a put, a look-up finds the new state if it is not older than the one cached or the subject is new, and the cached one otherwise; any other subject is found as before, unless it made room as the least recently used one |
| StateCaching.HoldsMostRecent | architecturekit/state_cache.go:217-267 | the cache holds exactly the most recently used keys, as many as fit, in the order of their use |
| StateCaching.SoundGrows | architecturekit/store.go:368-448 | whatever is appended, every cached state stays the state of a stretch of its stream from the first event on |
| StateCaching.SoundPut | architecturekit/store.go:430-447 | putting a folded state keeps the cache right for every state in use that looks alike |
| Preconditions.CheckPreconditions | architecturekit/precondition.go:143-195 | a command is refused for its declarations exactly if there is none, a zero one, a nil one, or Unconditionally among others, and only then, whatever their order, for an ID that is no revision |
| Preconditions.ResolvePreconditions | architecturekit/precondition.go:206-230 | the loop resolves every declared precondition in order, against the last event read, so that the database is asked exactly what was declared |
| Preconditions.ResolvedHoldExactly | architecturekit/precondition.go:206-230 | all that the database is asked holds of a log exactly if every required precondition does, every OnEventID of its own subject, and for OnStateRead the subject has the last event that was read |
| Preconditions.ResolvedAtHoldsExactly | architecturekit/precondition.go:206-230 | the database is asked at each index exactly what was declared at that index |
| Preconditions.ResolvedAligns | architecturekit/precondition.go:206-230 | resolved and declared preconditions have the same indexes |
| Preconditions.OnStateReadIsExact | architecturekit/precondition.go:206-230 | OnStateRead, resolved, holds exactly while the last event of the subject is the one that was read |
| WriteSafety.StepKeeps | architecturekit/store.go:708-795 | every step of any executor, of the database or of a foreign writer keeps the invariant of the protocol |
| WriteSafety.ConditionsHeld | architecturekit/store.go:794-795 | what the database stores under the resolved preconditions, it stores while everything that was declared holds |
| WriteSafety.RunKeeps | architecturekit/store.go:708-795 | the invariant holds at every moment of every interleaving, others acting also between the look into the cache, the read and the put |
| WriteSafety.DecidedOnTheStateAtTheAppend | architecturekit/store.go:744-795 | whenever the database stores a batch under OnStateRead, it was decided, event by event and in their order, on exactly the fold of the whole stream at that moment, with or without the cache, and whatever else was declared holds then |
| WriteSafety.AppendsAtMostOnce | architecturekit/store.go:708-741 | over all its attempts an Execute appends at most once, exactly once what it returns, never if it fails with a category, and it decides at most once more than it may retry |
| WriteSafety.DecidesAgainOnlyOnAnotherStream | architecturekit/store.go:723-741 | after a named precondition, Execute decides again only if the subject has another last event than the one it had read |
| WriteSafety.FoldIsWhole | architecturekit/store.go:368-448 | a fold that ends hands out the state of the whole stream as it was at some moment since it began, and its last event |
| WriteSafety.CacheInEveryRun | architecturekit/state_cache.go:217-267 | in every run the map and the list of the shared cache stay in bijection and within the bound, and no entry's event ID moves backwards |
| Store.StartOf | architecturekit/store.go:368-400 | a fold starts from the cached state if there is one of the same shape, which covers a stretch of the stream, refuses one of another shape, and starts from the initial value otherwise |
| Store.FoldRead | architecturekit/store.go:401-430 | the loop verifies, upcasts and evolves event by event: it yields the state and the last event of all that was handed out, or the first failure of an event, or else that of the read |
| Store.Fold | architecturekit/store.go:368-448 | with or without the cache, while others write before, between the look into the cache and the read, and between the read and the put, fold hands out the state and the last event of the whole stream as it was read; undisturbed, it fails only if the stream does not fold, and equals the fold from the first event; the cache then holds exactly what was read |
| Store.FoldVerifiedFolds | architecturekit/store.go:401-430 | verifying events on the way changes nothing if all of them are verified, and otherwise only makes the fold fail |
| Store.Keep | architecturekit/store.go:430-447 | what was folded is put into the cache, which stays right for everyone, although others have written since |
| Store.CheckedCandidates | architecturekit/store.go:765-784 | the loops over the events refuse nil events before events without a rule, and those before events that can not be encoded |
| WriteProtocol.Candidates | architecturekit/store.go:765-784 | a batch is made exactly if every event can be written, and holds them all, each with its type and data at its own place |
| Store.OneShapeFitsCache | architecturekit/store.go:368-400 | if all states of one type look alike, the cache never refuses one of them |
| Store.ExecuteOnce | architecturekit/store.go:744-795 | the outcome of an attempt is what the decider makes of exactly the state of the log it saw, or the failure of a fold that had a cause; while others write at any time, it asks for one write at most, of the decided events in their order and for exactly what was declared, not after its context has ended, and under OnStateRead only what was decided on the state right before is stored |
| Store.Write | architecturekit/store.go:511-523 | the database is asked once, for exactly the batch under the resolved preconditions, and its answer is the outcome |
| Store.Execute | architecturekit/store.go:708-741 | all of Execute appends at most once, returns exactly what it appended, which is what the decider returned for a state of the stream, each event at its place, asks for a write at most once more than it decides again, decides again only under OnStateRead, at most as often as it is set to, and after failures that this may help with, and after all of those while retries and the context last, and ends as its last attempt did |
| Store.ReturnedAreDecided | architecturekit/store.go:780-795 | each event that is returned has the subject of the command, and the type and the data of the event that was decided at the same place |
| CachedReads.ReadOnExactly | architecturekit/store.go:368-448 | verifying and folding on from what was read of a prefix gives exactly what reading anew gives, except where it fails before the latest event of the type |
| CachedReads.ReadsExactly | architecturekit/store.go:401-430 | an event that does not verify, or that no rule can take, makes every read of it fail, and nothing else does if the rules do not fail themselves |
| CachedReads.ReadOnFailsExactly | architecturekit/store.go:368-448 | such an event after the cached one and before the latest of the type makes reading on fail; with rules that do not fail themselves, it equals a fresh read that succeeds exactly if there is none |
| CachedReads.StopTellsCachedFromFresh | architecturekit/store.go:401-430 | with one in between, reading on from a cached state fails and a fresh FromLatest read does not |
| CachedReads.UnverifiedEventTellsCachedFromFresh | architecturekit/store.go:409-416 | it can be an event that every rule takes, but that does not verify |
| ProjectionWriters.HeldIsDurable | architecturekit/projection.go:549-658 | what a writer holds at a moment survives a crash at that moment: applied exactly up to the checkpoint for a transactional one, nothing lost for a resumable one |
| ProjectionWriters.HeldApply | architecturekit/projection.go:560-607 | applying the next event outside of a transaction continues the applied stretch by one |
| ProjectionWriters.HeldApplyInTx | architecturekit/projection.go:634-636 | applying the next event within the transaction leaves the durable part alone |
| ProjectionWriters.HeldCommit | architecturekit/projection.go:571-642 | a commit makes data and checkpoint agree for each of the three writers |
| ProjectionWriters.HeldRollback | architecturekit/projection.go:647-658 | a rollback goes back to exactly what was committed |
| ProjectionWriters.HeldRestart | architecturekit/projection.go:549-630 | a new start from what survived takes over without a gap |
| Backoff.DelaysAreAsDocumented | architecturekit/projection.go:237-297 | the k-th delay in a row is the initial one doubled k-1 times, capped at the maximum, for all k, exactly if the maximum is below 2^62 nanoseconds |
| Backoff.BelowLimit | architecturekit/store.go:160-173 | below that limit every delay lies between the initial one and the maximum |
| Backoff.DoublingWraps | architecturekit/projection.go:237-297 | a delay of 2^62 nanoseconds or more is followed by a negative one |
| ProjectionDriver.Driver.Apply | architecturekit/projection.go:454-463 | an event whose Apply fails or panics is not applied, and what survives stays right even if the process dies |
| ProjectionDriver.Driver.Commit | architecturekit/projection.go:609-642 | after a commit that fails although it took effect, what is held is known again |
| ProjectionDriver.Driver.Rollback | architecturekit/projection.go:647-658 | whatever a rollback comes to, nothing of the open transaction stays, and only a panic leaves the transaction behind |
| ProjectionDriver.Driver.Abort | architecturekit/projection.go:375-446 | nothing of the batch stays, and the failure is the one that aborted it, or that one joined with the one of the rollback |
| ProjectionDriver.Driver.Drive | architecturekit/projection.go:375-446 | across every failure the applied events stay a gap-free stretch in order, each of them verified; if drive goes through, everything stored when it began is applied and verified, and the checkpoint is saved of the last event it has handed over itself, if there is one; it fails or dies only if a call has failed, an event is not verified or the process has died, a finite one takes at most four calls for every event, and a live one never waits with a full batch |
| ProjectionDriver.Driver.DriveEvent | architecturekit/projection.go:397-430 | an event that does not verify is not applied and fails for good, unless a failing rollback is joined; any other one is applied and committed exactly with a full batch, or the batch is rolled back |
| ProjectionDriver.Driver.ReadOnce | architecturekit/projection.go:375-446 | a read hands out the event after the last one, and a finite one ends only once it has handed out what was stored when it began |
| ProjectionDriver.Driver.CatchUp | architecturekit/projection.go:333-360 | catching up that goes through has applied every event stored when it began, and it goes through if no call fails |
| ProjectionDriver.Driver.Follow | architecturekit/projection.go:300-330 | a run reports that it has caught up exactly if catching up went through, so once it has applied every event stored when it began to follow; it is live from then on by the clock, and not at all otherwise, and while live it never waits with an event that is not committed |
| ProjectionDriver.Driver.AskCheckpoint | architecturekit/projection.go:538-630 | an answer names the last event that was handed over; without one, it is empty, and only what keeps no checkpoint in memory goes without one |
| ProjectionDriver.Driver.HoldSession | architecturekit/projection.go:241-273 | a session ends its run only with the context, a panic or a failure that is not transient, each of which some call has caused; otherwise it has applied exactly the events between the two places that the checkpoints before and after it name, as far as they are answered, and was live by the clock once it had caught up |
| ProjectionDriver.Driver.FollowAndAsk | architecturekit/projection.go:244-255 | a panic that is not turned into an error on the way ends the run with it, even if the context has ended; otherwise an ended context counts, a failure that will not pass ends the run with it, and only a transient one leads to another session |
| ProjectionDriver.AnswersDiffer | architecturekit/projection.go:242-276 | the checkpoints before and after a session differ exactly if it has applied an event, both being answered, or, one of them not, the other one names an event |
| ProjectionDriver.HealthIsAsDocumentedIfAnswered | architecturekit/projection_options.go:118-125 | attempts start over as documented after every session around which both checkpoints are answered, and only then after every one |
| ProjectionDriver.HealthIsAsDocumentedInMemory | architecturekit/projection.go:538-588 | in the sessions of a run of a rebuilt projection, and of a resumable one behind the first event applied, attempts start over as documented |
| ProjectionDriver.Driver.Notice | architecturekit/projection.go:259-290 | attempts are counted and delays doubled in a row, and start over exactly after a session whose checkpoints differ, or which was live for longer than the initial delay |
| ProjectionDriver.Driver.StartOverAnew | architecturekit/projection.go:241-296 | if the checkpoint is answered only after each session, every attempt is the first and waits the initial delay, although nothing is applied |
| ProjectionDriver.Driver.Run | architecturekit/projection.go:227-298 | every run, wherever it ends or dies, keeps what survives; its sessions have applied one stretch of the stream, verified event by event, each going on where the one before ended; it waits as its attempts in a row say, which start over exactly after a session that looks healthy; and it ends only with its context, by dying, or with a panic or the permanent failure of its last session |
| ProjectionDriver.Driver.Live | architecturekit/projection.go:164-298 | over any number of crashes and restarts a transactional projection's durable data is each event up to its durable checkpoint, once and in order, a resumable one has lost none, and nothing that is applied is unverified |
| ProjectionDriver.Driver.Start | architecturekit/projection.go:538-558 | a new start takes over what is durable, and a rebuilt projection begins anew |
| ProjectionRuns.ProjectionRun.ReportCaughtUp | architecturekit/projection_run.go:354-364 | the channel is closed only once the status says that the run has caught up |
| ProjectionRuns.ProjectionRun.ReportDisrupted | architecturekit/projection_run.go:368-380 | every disruption is one attempt more, it keeps when the first of them in a row began, and it leaves alone whether the run has caught up and how far it has come |
| ProjectionRuns.ProjectionRun.Stop | architecturekit/projection_run.go:397-407 | a run that is done says why, in its status as well as by Err |
| ProjectionRuns.MovesAreSteps | architecturekit/projection_run.go:354-407 | whatever a run does by one of its reports is a sequence of steps of the state machine of the wait |
| ProjectionRuns.StepKeeps | architecturekit/projection_run.go:245-322 | every step of the runs, their signals and WaitCaughtUp keeps its invariant |
| ProjectionRuns.VerdictIsTrue | architecturekit/projection_run.go:286-322 | WaitCaughtUp returns nil only if every run has caught up, although it reads the statuses one by one, and every other verdict is true as well |
| ProjectionRuns.NeverStuck | architecturekit/projection_run.go:245-281 | it waits again only after fewer signals than there are runs, and while it waits for runs that have all settled, a signal is there or can be sent |
| ReadYourWrites.RevisionedView.Seen | architecturekit/in_memory_view.go:214-228 | the revision reaches the event and never moves back; exactly if it moves, the channel everyone waits on is closed, and the next one gets another, which is open |
| ReadYourWrites.TrackedApply | architecturekit/revision.go:115-125 | every view records the event after it was applied, and none if applying it failed, also if a view is given twice |
| ReadYourWrites.StepKeeps | architecturekit/in_memory_view.go:214-254 | every step of writing, applying, recording and waiting keeps the invariant |
| ReadYourWrites.WaitedForIsApplied | architecturekit/in_memory_view.go:234-254 | once WaitFor has returned nil, every event of the projection's subjects up to the revision has been applied |
| ReadYourWrites.WrittenIsApplied | architecturekit/revision.go:292-319 | once WaitFor has returned nil for the revision of what was written, all of it that is about the projection's subjects has been applied |
| ReadYourWrites.NoWakeupIsLost | architecturekit/in_memory_view.go:234-254 | while the channel a reader waits on is open, the view is where the reader saw it and short of what it waits for |
| ReadYourWrites.DriverTakesTheStep | architecturekit/projection.go:375-463 | as long as the driver of a rebuilt projection holds the first events of its stream, handing over the next one is the step of applying |
| ReadYourWrites.DriverTakesSteps | architecturekit/projection.go:227-463 | from any beginning of the stream, any longer one is reached by a sequence of these steps |
| ReadYourWrites.RunTakesSteps | architecturekit/projection.go:227-298 | whatever a whole run of the driver of a rebuilt projection applies, across failures and retries, a system that was as far as it applies by a sequence of these steps |
| ViewModel.OrderIsKept | architecturekit/in_memory_view.go:511-608 | whatever an operation inserts or removes, the items stay in the order of their last insertion |
| ViewEffects.ActsOnMap | architecturekit/in_memory_view.go:320-608 | as a map from keys to items, a view is changed by every call exactly at the items it is about, only by an event that is newer, and by refusing an ID that is no revision, a taken key and a moved key |
| ViewEffects.ChangesOne | architecturekit/in_memory_view.go:526-565 | the changed copy, marked with the event, takes the place of exactly the item with the key, if the event is newer and the key stays |
| ViewEffects.KeysInOrder | architecturekit/in_memory_view.go:498-507 | the keys of the matching items come in the order of the view |
| ViewEffects.UpdatesAtOnce | architecturekit/in_memory_view.go:460-475 | UpdateWhere changes exactly the items that matched before and that the event is newer than, as if all at once, and counts them |
| ViewEffects.ChangesUpToError | architecturekit/in_memory_view.go:569-586 | if a change would move an item to another key, exactly the items before it have been changed and counted |
| ViewEffects.DeletesAtOnce | architecturekit/in_memory_view.go:480-494 | DeleteWhere removes exactly the items that match and that the event is newer than, and counts them |
| ViewEffects.ItemsTellTheirRevision | architecturekit/in_memory_view.go:511-514 | the field that RevisionIn writes holds, in every item that Get and All show after any calls, the ID of the event that changed it last |
| ViewStorage.LiveIsEntries | architecturekit/in_memory_view.go:284-296 | walking the order list and skipping tombstones yields each entry exactly once, by position |
| ViewStorage.LiveRemove | architecturekit/in_memory_view.go:590-608 | removing an entry without touching the order list removes exactly its item |
| ViewStorage.SortedIsUnique | architecturekit/in_memory_view.go:712-723 | there is one way to sort the keys of entries by position |
| InMemoryViews.InMemoryView.Get | architecturekit/in_memory_view.go:263-274 | Get hands out the item that is shown under the key |
| InMemoryViews.InMemoryView.All | architecturekit/in_memory_view.go:284-296 | All hands out exactly the live items, each once, in their order |
| InMemoryViews.InMemoryView.KeysMatching | architecturekit/in_memory_view.go:498-507 | the keys of the matching items, in the order of the view |
| InMemoryViews.InMemoryView.Add | architecturekit/in_memory_view.go:511-522 | a new item is shown last, and every index holds its key |
| InMemoryViews.InMemoryView.ChangeOne | architecturekit/in_memory_view.go:526-565 | a change applies only to an older item, may not change its key, keeps its place, and moves its key within every index |
| InMemoryViews.InMemoryView.DeleteOne | architecturekit/in_memory_view.go:590-608 | an older item disappears from the view and every index, and no value without keys is left behind |
| InMemoryViews.InMemoryView.Compact | architecturekit/in_memory_view.go:626-640 | compacting shows nothing else, and brings the order list below twice the entries plus 16 |
| InMemoryViews.InMemoryView.Insert | architecturekit/in_memory_view.go:320-343 | an ID that is no revision or a taken key is refused, and an event that is not newer has been applied already |
| InMemoryViews.InMemoryView.Upsert | architecturekit/in_memory_view.go:363-392 | a missing item is made from the zero value under the given key, any other one is changed |
| InMemoryViews.InMemoryView.Update | architecturekit/in_memory_view.go:416-431 | changing one item, unless the ID is no revision |
| InMemoryViews.InMemoryView.Delete | architecturekit/in_memory_view.go:439-449 | removing one item, unless the ID is no revision |
| InMemoryViews.InMemoryView.ChangeEach | architecturekit/in_memory_view.go:569-586 | several items are changed in order, and an error keeps what was changed before |
| InMemoryViews.InMemoryView.UpdateWhere | architecturekit/in_memory_view.go:460-475 | exactly the items that matched before are changed, in order, up to the first error |
| InMemoryViews.InMemoryView.DeleteWhere | architecturekit/in_memory_view.go:480-494 | exactly the items that matched before are removed, as far as the event is newer |
| InMemoryViews.InMemoryView.AddIndex | architecturekit/in_memory_view.go:655-680 | a new index agrees with the view from the start |
| InMemoryViews.InMemoryView.KeysOf | architecturekit/in_memory_view.go:712-723 | the keys of a value, sorted by position, are the keys of the items with that value in the order of the view |
| InMemoryViews.InMemoryView.Lookup | architecturekit/in_memory_view.go:729-740 | Lookup hands out what All does, filtered by the value, in the same order |
| InMemoryViews.InMemoryView.IndexUpdate | architecturekit/in_memory_view.go:748-763 | updating through an index is UpdateWhere for the value |
| InMemoryViews.InMemoryView.IndexDelete | architecturekit/in_memory_view.go:767-777 | deleting through an index is DeleteWhere for the value |
| ViewHistory.Perform | architecturekit/in_memory_view.go:748-777 | every call of a view, also through an index, does what its meaning says, an update or removal through an index that of the items with the value |
| ViewHistory.AllInOrderOfLastInsertion | architecturekit/in_memory_view.go:284-640 | after every sequence of operations the contents are exactly the keys inserted and not removed since, in the order of their last insertion |
| ViewHistory.LiveOn | architecturekit/in_memory_view.go:284-777 | a view with any indexes, after every sequence of calls, also through its indexes, shows exactly that, with its indexes in agreement and its order list within bounds |
| ViewHistory.AllUnderOwnKeys | architecturekit/in_memory_view.go:526-565 | if RevisionIn leaves the key alone, every item is always found under its own key |
| TypedProjections.Apply | architecturekit/typed_projection.go:161-210 | an event is upcasted, and every part with a handler is handed over with its place, up to the first error |
| TypedProjections.PlanInOrder | architecturekit/typed_projection.go:161-180 | what is done for an event is what the handlers of its parts do, part by part and call by call, and nothing else |
| TypedProjections.PlannedForItsPart | architecturekit/typed_projection.go:167-175 | every call of the handler for a part is made for that part, with its ID and its place |
| TypedProjections.AppliedAgainExactly | architecturekit/in_memory_view.go:16-44 | handing a stored event over again, also after later ones that change, add and remove anything, never changes anything at any of its actions, exactly if every item it may add is in the view |
| TypedProjections.AppliedAgainChangesNothing | architecturekit/in_memory_view.go:16-44 | the view after all of it is the same if every item it may add is there, and only then for an event that removes nothing itself |
| TypedProjections.RetryIsUninterrupted | architecturekit/typed_projection.go:161-210 | after a failure at any action of any part, what was done before is passed over without any change exactly if what it may have added is there, and then the whole event yields what one uninterrupted application would; for what removes nothing, that is always so |
| TypedProjections.RemovedItemComesBack | architecturekit/in_memory_view.go:320-343 | an item that a later event has removed comes back |
| TypedProjections.OwnRemovalIsNotRepeated | architecturekit/typed_projection.go:183-189 | an event whose later part removes what an earlier one has upserted may leave another view the second time |
| GraphEquality.Comparison.IsVisited | architecturekit/state_cache.go:181-190 | tells whether a pair of references is compared already, and records it |
| GraphEquality.Comparison.IsSame | architecturekit/state_cache.go:99-160 | ends on every heap, answers yes only if all pairs it added hold up, and yes whenever any bisimulation relates the two |
| GraphEquality.Comparison.IsSameElements | architecturekit/state_cache.go:169-177 | the elements are compared one by one, under the pairs visited so far |
| GraphEquality.Comparison.IsSameEntries | architecturekit/state_cache.go:127-139 | a map is compared by looking its keys up, in whatever order it is ranged over |
| GraphEquality.AreSame | architecturekit/state_cache.go:99-190 | isSame is true exactly if the two graphs are bisimilar, functions compared by nil, NaN equal to NaN, keys as Go looks them up |
| GraphPaths.SameExactlyIfNothingTells | architecturekit/state_cache.go:99-190 | two graphs are the same exactly if no path of finitely many steps, through interfaces, pointers, elements, fields and map entries, leads to two values that look different |
| GraphEquality.ShapesEqual | architecturekit/state_cache.go:67-77 | two shapes of one source are equal whatever their initial value holds, any others if all they consist of is the same |
| GraphEquality.SameAsItself | architecturekit/state_cache.go:88-99 | exactly the graphs that reach no map with a NaN key equal themselves, cyclic or not |
| GraphEquality.KeyFindsItsEntry | architecturekit/state_cache.go:127-139 | a key that equals itself finds its own entry, and a NaN finds none |
| SpellTexts.QuotesSeparable | architecturekit/httpapi/spell_out.go:57-58 | no two strings are quoted alike, and no quoted string is the beginning of another |
| SpellTexts.KeyTextsSeparable | architecturekit/httpapi/spell_out.go:167-197 | no two keys of one kind are written alike |
| SpellTexts.GroupSplit | architecturekit/httpapi/spell_out.go:147-197 | a bracketed list of texts that tell where they end tells its elements |
| SpellTrees.TextTellsValues | architecturekit/httpapi/spell_out.go:40-197 | two values of one type that hold nothing in an interface and have the same text are equal, and no text goes on as if another had ended |
| SpellTrees.InOrderIsUnique | architecturekit/httpapi/spell_out.go:180-182 | however a map hands out its entries, sorting them by how keys are written has one outcome |
| SpellInterfaces.InterfacesRunTogether | architecturekit/httpapi/spell_out.go:73-82 | every type with an interface where a value can have a part has two different values with the same text |
| SpellInterfaces.HeldInInterface | architecturekit/httpapi/spell_out.go:40-131 | a value with something in an interface shows such a place of its type |
| SpellInterfaces.TextsTellValuesExactly | architecturekit/httpapi/spell_out.go:11-24 | the texts of a type tell its values apart exactly if it has no interface where a value can have a part |
| SpellOut.Speller.Spell | architecturekit/httpapi/spell_out.go:40-131 | it succeeds exactly if the value can be unfolded, writes the text of the unfolded value, and leaves the path as it was |
| SpellOut.Speller.SpellReferenced | architecturekit/httpapi/spell_out.go:135-145 | a reference on the path is refused, any other is followed and then taken off the path |
| SpellOut.Speller.SpellElements | architecturekit/httpapi/spell_out.go:147-163 | the elements with commas between them |
| SpellOut.Speller.SpellFields | architecturekit/httpapi/spell_out.go:84-98 | every field with its name, unexported ones included |
| SpellOut.PrintsOneMore | architecturekit/httpapi/spell_out.go:147-163 | one element more is written behind the others with a comma between |
| SpellOut.PrintsOneFieldMore | architecturekit/httpapi/spell_out.go:84-98 | one field more is written behind the others, with its name |
| SpellOut.Speller.SpellEntries | architecturekit/httpapi/spell_out.go:167-197 | the text of a map does not depend on the order it is iterated in |
| SpellOut.Speller.SortEntries | architecturekit/httpapi/spell_out.go:180-182 | the collected entries, strictly ordered by their keys' texts, none lost and none added |
| SpellOut.SpelledOut | architecturekit/httpapi/spell_out.go:25-35 | refused exactly if blocked, and otherwise the type's name and the text of the value, and nil for no value |
| SpellOut.RefusedExactlyIfBlocked | architecturekit/httpapi/spell_out.go:135-145 | refused exactly if following references comes to an address it came through, or to a function or channel |
| SpellOut.SelfContainingIsRefused | architecturekit/httpapi/spell_out.go:37-39 | every value that contains itself is refused |
| SpellOut.FirstFieldIsRefused | architecturekit/httpapi/spell_out.go:135-145 | a struct that points to its own first field is refused, though it does not contain itself |
| SpellOut.SameTextExactlyIfEqual | architecturekit/httpapi/spell_out.go:11-24 | two values of one type that hold nothing in an interface, anywhere in memory, have the same text exactly if they are equal with pointers followed |
| SpellOut.NamesMayRunTogether | architecturekit/httpapi/spell_out.go:25-35 | an int and an int8 of other values are spelled out alike, names of types included |
| SpellOut.NamesTellTypes | architecturekit/httpapi/spell_out.go:25-35 | what is spelled out alike for two types has one name continue the other, and for one type the same text |
| SpellNames.CollidingAreNumeric | architecturekit/httpapi/spell_out.go:40-131 | only a number or a float is written as a piece of a name followed by the text of something else, and that is one as well |
| SpellNames.NamesCollideExactly | architecturekit/httpapi/spell_out.go:25-35 | values of two types, one of whose names is the other's or continues it, are spelled out alike exactly if the one's text is what it continues with and the other's text; if it continues, both are numbers or floats, and if the names are the same, values that both types share are told apart exactly if they differ |
| SpellNames.OneNameTellsNoTypes | architecturekit/httpapi/spell_out.go:25-35 | two struct types of one name share the whole text of what both hold |
| SpellNames.NumbersCollideExactly | architecturekit/httpapi/spell_out.go:45-49 | two such types of whole numbers have values that are spelled out alike exactly if the name goes on with digits, the first of them no zero, which with a zero behind them are in the range of the first type |
| SchemaMisfits.DerivedSchemaIsSoundExactly | architecturekit/schema.go:67-98 | the derived schema accepts the encoding of a value exactly if no nil is written in an optional field of it that does not allow null, none of an interface that declares MarshalText but behind a pointer, and nothing that a schema of its own refuses; and of every value of the type exactly if it leads to nothing of the kind |
| SchemaSoundness.DerivedExactly | architecturekit/schema.go:355-462 | the same for a type within another one, whatever is being derived around it |
| SchemaShapes.AcceptsExactlyWhatLooksLikeIt | architecturekit/schema.go:355-535 | of all of JSON, a derived schema accepts exactly what looks like a value of its type, at any depth |
| SchemaSoundness.StructExactly | architecturekit/schema.go:465-496 | the closed object schema accepts what a struct is written as exactly if each field that is written fits |
| SchemaSoundness.FieldExactly | architecturekit/schema.go:498-514 | quoted, optional and plain fields are accepted exactly if they fit |
| SchemaSoundness.PresentExactly | architecturekit/schema.go:518-535 | an optional value that is not nil is accepted without null, exactly if its parts fit |
| SchemaSoundness.NilIsAcceptedExactly | architecturekit/schema.go:498-535 | the nil of an optional field is accepted exactly if the field is not quoted, and its own schema, that of the pointer's target, or the kind of either allows null |
| SchemaSoundness.NullableAccepts | architecturekit/schema.go:763-775 | a nullable schema accepts null and what the schema accepts and nothing else, and withoutNull undoes it |
| SchemaSoundness.ObjectAccepts | architecturekit/schema.go:465-496 | an object schema accepts exactly the objects with all required and only known members |
| SchemaSoundness.NullExactlyIfWritten | architecturekit/schema.go:355-462 | a derived schema accepts null exactly if some value of the type is written as null, and the type is not an interface that declares MarshalText |
| SchemaSoundness.PresentNullExactlyIfWritten | architecturekit/schema.go:518-535 | an optional field accepts null exactly if some value that is not left out is written as null, and it does not point to such an interface |
| SchemaMisfits.MisfitExists | architecturekit/schema.go:541-640 | a type that leads to something the schema does not allow for has a value whose encoding is refused |
| SchemaMisfits.MisfitShows | architecturekit/schema.go:541-640 | a value that is refused shows where its type leads to something of the kind |
| SchemaMisfits.WrittenNilIsRefused | architecturekit/schema.go:498-535 | one such nil in a struct makes the schema refuse the struct |
| SchemaMisfits.OneFieldIsRefusedExactly | architecturekit/schema.go:610-632 | for a struct with a list or a quoted pointer behind an embedded pointer, or with omitzero, nil is accepted exactly if it is left out |
| SchemaMisfits.NilTextIsRefused | architecturekit/schema.go:393-395 | for a struct with a plain field of an interface that declares MarshalText, nil is refused |
| Schemas.DerivedExactlyWithParts | architecturekit/schema.go:355-462 | a type is derived exactly if it can be written and each of its parts is described |
| Schemas.UnderivedExactlyIfBlocked | architecturekit/schema.go:333-362 | deriving fails exactly for a type that is recursive other than through a type with its own schema, or made of a type that has none |
| SchemaDerivation.Deriver.Structure | architecturekit/schema.go:355-462 | ends on every type, marks it only while deriving it, and yields what the rules yield |
| SchemaDerivation.Deriver.StructObject | architecturekit/schema.go:465-496 | the loop collects a property of every field and the names of the required ones |
| SchemaDerivation.Deriver.FieldSchema | architecturekit/schema.go:498-514 | the schema of a field by its options |
| SchemaDerivation.Deriver.SchemaOfPresent | architecturekit/schema.go:518-535 | the schema of a value that is left out if it is empty |
| SchemaDerivation.Deriver.SchemaOf | architecturekit/schema.go:340-353 | a type's own schema comes before the derived one |
| SchemaDerivation.SchemaFor | architecturekit/schema.go:296-313 | deriving ends, and fails exactly if something is in the way |
| SubjectSchemes.NewSubjectScheme | architecturekit/subject.go:33-82 | a pattern is accepted exactly if it is a slash before every literal or named placeholder, no name twice |
| SubjectSchemes.Check | architecturekit/subject.go:159-186 | values are accepted exactly if there is one for every placeholder and each is a segment, and otherwise the first offending one is named |
| SubjectSchemes.Build | architecturekit/subject.go:119-140 | the subject is the pattern with the values in place of the placeholders, in order |
| SubjectSchemes.FilledAt | architecturekit/subject.go:119-140 | at every place of the subject stands the literal, or the value of the placeholder there, counted from the first |
| SubjectSchemes.BuildIsInjective | architecturekit/subject.go:119-140 | no two lists of accepted values compose the same subject |
| SubjectSchemes.TakesApartExactly | architecturekit/subject.go:197-227 | taking segments apart and filling them in are each other's inverse |
| SubjectSchemes.Match | architecturekit/subject.go:197-227 | a subject is matched exactly if it can be built, and building the matched values yields it again |
| SubjectSchemes.ValueOf | architecturekit/subject.go:236-247 | the value of a placeholder is the one the subject was built with |
| SubjectSchemes.Root | architecturekit/subject.go:93-105 | the literals before the first placeholder, or a slash |
| SubjectSchemes.BuiltLiesUnderRoot | architecturekit/subject.go:84-105 | every subject that can be built lies under the root |
| SubjectSchemes.RootIsDeepest | architecturekit/subject.go:84-105 | no deeper root has all subjects under it |
| EntityTags.HoldsTag | architecturekit/httpapi/revision.go:116-136 | the loop ends on every header, and on every well-formed list finds the tag exactly if a listed one is weakly equal to it |
| EntityTags.HoldsExactlyWhatIsListed | architecturekit/httpapi/revision.go:107-136 | whitespace, empty elements, weak marks, commas within tags and several lines make no difference to what is found |
| EntityTags.StarNamesEvery | architecturekit/httpapi/revision.go:107-136 | a star names every tag |

## Left out

- The HTTP handlers, routing, health answers, the wording of decoding errors, logging and option handling: plumbing.
- The client, the network, hashes and signatures: a log with reads that may fail, a predicate that says which events verify, and truthful outcomes of writes.
- The encoding of event data: rules and upcasters are functions on events, and an event whose data can not be encoded is marked as such.
- Panics for programming errors and the texts of errors: a panic that guards an argument is a missing result, a category stands for an error.
- Read, its bounds, Write and the query package: short, and settled by what is modelled next to them.
- Preconditions.OnStateReadIsExact: the database is taken to compare the event ID of a precondition as text, which for the IDs it hands out is the same as comparing numbers.
- Sharing between values: items and states are values, so that Clone and CloneWith are a function that is applied where the code applies it, and what a caller could do to a shared item is not modelled.
- InMemoryViews.InMemoryView.AddIndex: the indexes of a view are values within it that share one type of value, instead of objects of their own with a type each.
- ProjectionDriver.Driver.Apply: an Apply that fails is taken to have applied nothing outside of a transaction, which is what the kit asks of a projection.
- ProjectionDriver.Driver.CatchUp: that the events are applied does not mean that the checkpoint is saved: a batch cut short leaves it behind, and catching up again without a new event does not save it.
- ProjectionDriver.Driver.Run: the script of moments is finite, and a run that has used it up dies; every finite beginning of every run is covered. Time passes as the script says.
- ProjectionDriver.Driver.AskCheckpoint: a checkpoint function that fails is taken to hand out an empty checkpoint with its error.
- ReadYourWrites.WaitedForIsApplied: WaitFor is part of a state machine instead of a method that blocks, as is WaitCaughtUp; goroutines are its steps, and what one does under a lock is one step. The driver is the step of applying the next event (see ReadYourWrites.RunTakesSteps).
- The timeout of WaitForWritten and the status of a run over HTTP: built on what is modelled.
- SpellOut.SameTextExactlyIfEqual: maps with keys other than strings, numbers and booleans are not modelled; a float or a complex number stands for itself by the shortest text that parses back to it.
- SpellNames.NamesCollideExactly: of names that continue with something other than a letter, a digit or an underscore, nothing is said.
- SpellInterfaces.TextsTellValuesExactly: an interface type stands for `any`. One with methods holds fewer types, which may happen to have names that do not continue each other.
- SchemaMisfits.DerivedSchemaIsSoundExactly: starts from the flattened list of fields, each with whether it is behind an embedded pointer, so that the rules for embedded structs, tags and promoted functions are not modelled. What counts as empty, and for texts and numbers of other kinds as zero, is a parameter, as are the IsZero functions: for a field that is asked for its own, as for a schema of its own, the condition is that there is a value that is written and does not fit. The date-time format counts as an annotation.
- Store.Fold: others use the cache before a fold and after it, not within it; the state machine of WriteProtocol has them use it at any time.
- ProjectionRuns.ProjectionRun.ReportCommitted: that the event it is given has been applied and committed is up to the driver.
- Own schemas: read by the keywords that derived schemas use.
- The hash that makes a tag of spellOut's text: it is not injective, so the statement ends at the text.
- Recursive walks of graph equality over reflection's type identity: a type is its kind, a number and a size, and a value of another kind than its type says does not exist.
