# Verified model of the auth and profile service

A Dafny model of the service's event-sourced core, with proofs. Commands commit account rows together
with outbox rows; a relay copies the outbox to a log; consumers that may crash at any point fold the
log into the profile read model; tokens, revocations and presence live on one advancing clock.

`dafny verify dfyconfig.toml` checks everything.

## How it is organised

| part | modules |
|---|---|
| outbox, relay, log | `Awaits`, `Envelope`, `Relay`, `PublicationOrder`, `OutboxDispatching`, `Draining`, `Starvation`, `LostPublish` |
| library consumer | `Library`, `LibraryConsumer`, `ConsumerGuarantees`, `KafkaConsumer` |
| the shelf of five posts | `Ordering`, `Shelf`, `ShelfOrder`, `ShelfTable`, `ShelfRefinement`, `ShelfRuns`, `ProfileAggregate`, `ProfileRepository` |
| recipient search | `Text`, `LikePattern`, `RecipientSearch` |
| accounts and role requests | `AuthTypes`, `Accounts`, `CommandMeanings`, `RoleRequests`, `RoleProvenance`, `AuthEntities`, `UserRepository`, `AuthUseCases` |
| tokens and presence | `Tokens`, `Redis`, `Revocation`, `Sessions`, `SessionUseCases`, `SessionServer`, `Presence`, `PresenceService` |
| the read model over all topics | `ProfileEvents`, `Projections`, `MessageMeanings`, `Topics`, `ProfileProjectors`, `ReadModel`, `AuthEvents`, `Onboarding`, `Pipeline` |

Protocols are step systems. `Apply` makes one step, a step that is not enabled changes nothing, so
every list of steps is a run and the theorems hold for every list. What the environment decides is in
the steps: which process moves, whether a call that raised had its effect, whether a batch goes on
after a rollback, where the process stops. Account runs (`Accounts.IsRun`), shelf runs
(`ShelfTable.IsRun`) and runs of the whole pipeline (`Pipeline.IsRun`) ask in addition that generated
ids are new.

The objects that the service changes in place are classes. `OutboxDispatcher`, `Platform`, `Consumer`
and `Server` keep a trace and are proved to stay inside their step system however calls are
interrupted; `User`, `RoleRequest`, the repositories and the use cases are proved to do what the
functions of `Accounts` say; `Profile` is proved to hold what `Shelf.Upsert` computes. Each awaited
call takes a script of what happens around it (`Await`).

What an operation means is also said outright, in fields and rows and without the functions that compute it:
`Envelope.SaysRow` and `AuthEvents.SaysEvent` for what is published, `CommandMeanings.Means` for the account
use cases, `MessageMeanings.MessageMeans` for the consumers, `SessionUseCases.SignInMeans` for signing in,
`Tokens.IsAccessToken` and `Tokens.IsRefreshToken` for what is signed, `Text.SameAddress` and `Text.IsNormal`
for addresses.

## What turned out to need a condition

- **The shelf stops being the real top five when a score falls below a post that was left out.** One upsert
  keeps it so exactly when the post was not on the shelf or nothing left out beats its new score, in the
  aggregate (`Shelf.UpsertKeepsTopFive`) and in the table (`ShelfRuns.TableKeepsTopFiveIff`).
- **Publication order needs more than the two conditions of one dispatcher and ordered commits**: a batch
  must not go on past a publish that never reached the log to a newer row. In every reachable state that
  is exactly what keeps all continuations in order (`LostPublish.GoingOnIsSafeIffHarmless`).
- **The outbox drains while nothing goes wrong** (`Draining.EnoughPollsDrain`). **A row whose publish always
  raises blocks others, and how many it takes depends on what the rollback does to the batch**: one, when the
  batch is dropped, and fifty, when it goes on. A row can still go out exactly when some dispatcher has it in
  hand or fewer such rows than that are strictly older (`Starvation.SomeRunPublishesIff`); it is sure to,
  whatever the query answers, exactly when fewer than that are not newer (`Starvation.SurelyPublishedIff`).
  The code drops the batch: SQLAlchemy's rollback expires the rows that were loaded, so the next row's turn
  raises, and so does the handler's log line. One message the broker always refuses keeps back everything
  strictly newer; the comments speak only of its own retry.
- **Given-up messages need not matter**: a pair is owned as the plain fold says exactly when the last message
  about it was not given up with something still to do (`ConsumerGuarantees.OwnershipIsTheFoldIff`).
- **A logout can leave the last fraction of a second of a token open**, exactly when
  `Revocation.LapseAgainstExpiry` says; and a refresh that straddles the expiry can pass even when the
  key lives as long as the token, by the time it takes from decoding to looking up
  (`Revocation.RevokedForGood`). A second logout under the same id with a nearer expiry shortens the key
  (`Revocation.AnotherExpiryReopens`), so `Sessions.LoggedOutStaysOut` asks that nobody signs such a token.
- **A grant committed by a decision is backed by an APPROVED request exactly when some decision on it ran
  through both commits** (`RoleRequests.GrantIsBackedIffRanThrough`); an approval that stops in between
  can be declined later, with the role granted. The comments promise only the other direction.
- **Hiding a game in the aggregate reaches its first entry only**; it hides the game exactly when no
  later entry is visible (`ProfileAggregate.HideHidesIff`), which the tables' one row per game ensures.
- **Presence events are 30 seconds apart only without overlap**: an announcement is, from another heartbeat
  of its user, exactly when it did not look before that one's key was set
  (`Presence.ApartIffNotOverlapping`); two tabs can both announce (`Presence.TwoTabsBothAnnounce`).
- **A heartbeat that sets its key after the last one lapsed leaves the user offline unannounced**, and that
  is the only way a run breaks (`Presence.GapIsClosedIff`, `Presence.RunIsUnbrokenIff`,
  `Presence.LateSetLapsesSilently`).
- **A profile goes by the registered name exactly when its first event gives it**: a grant that is handled
  first leaves the name empty (`Pipeline.RegistrationsBecomeProfiles`, `Topics.NamesDependOnTheOrder`).

## Model

| member | source | states |
|---|---|---|
| Relay.RelaySafety | app/infrastructure/messaging/outbox_dispatcher.py:93-125 | in every state any interleaving of dispatchers, failures and crashes can reach: rows marked dispatched have their message in the log, every message is the envelope of a committed row, equal event ids mean equal messages, and different rows have different event ids |
| Relay.DeduplicationIsExactlyOnce | app/infrastructure/messaging/outbox_dispatcher.py:56-63 | a reader that drops repeated event ids sees each published event exactly once and nothing else; every dispatched row is among them |
| Relay.StepGrows | app/infrastructure/messaging/outbox_dispatcher.py:93-125 | no step removes a row, changes its event, unmarks it, or removes or reorders a message |
| Relay.StepKeeps | app/infrastructure/messaging/outbox_dispatcher.py:101-125 | the invariant behind relay safety survives every step from every state that has it |
| Relay.LogSaysTheRows | app/infrastructure/messaging/outbox_dispatcher.py:22-53 | in every reachable state each message is some committed row's: on the row's topic, keyed by its aggregate, with exactly the eight envelope fields read off the row and a time without an offset taken as UTC; and each row marked dispatched has such a message |
| PublicationOrder.FirstOccurrencesFollowCreation | app/infrastructure/messaging/outbox_dispatcher.py:95-125 | with one dispatcher, rows committed in created_at order and no batch that goes on past a lost publish to a newer row (unless the lost message was in the log already), first occurrences in the log are in created_at order over every run, whatever is duplicated, unmarked or crashes |
| LostPublish.GoingOnIsSafeIffHarmless | app/infrastructure/messaging/outbox_dispatcher.py:106-125 | the exact condition, in every state an orderly run can reach: a batch that goes on past a lost publish keeps all orderly continuations in created_at order if and only if the message was in the log already or no later row of the batch is newer |
| LostPublish.HarmIsDone | app/infrastructure/messaging/outbox_dispatcher.py:106-125 | the failing side, constructed: after a harmful loss, sending the rest of the batch and draining the outbox with nothing else going wrong leaves the log out of order |
| PublicationOrder.SkippingALostPublishReorders | app/infrastructure/messaging/outbox_dispatcher.py:106-125 | its smallest instance: any two rows of different age, the older one's publish lost |
| Draining.EnoughPollsDrain | app/infrastructure/messaging/outbox_dispatcher.py:93-125 | polls that nothing disturbs, a fiftieth as many as there are rows waiting, leave no undispatched row, whichever answers the query gives |
| Draining.FiftyOlderRowsStarve | app/infrastructure/messaging/outbox_dispatcher.py:95-101 | if no turn of fifty older rows gets as far as storing a mark, whatever goes wrong with them, a row is neither taken up nor published, over any run of any number of dispatchers |
| Starvation.SomeRunPublishesIff | app/infrastructure/messaging/outbox_dispatcher.py:93-125 | the exact condition, in every state that a run with these rows refused can reach: some continuation publishes a row if and only if a dispatcher has it in hand with nothing before it that ends the batch, or fewer refused rows are strictly older than it takes to block (one when a rollback drops the batch, fifty when the batch goes on) |
| Starvation.SurelyPublishedIff | app/infrastructure/messaging/outbox_dispatcher.py:93-125 | the exact condition for all answers: some number of polls publishes a row whatever the query answers if and only if fewer refused rows than it takes to block are not newer than it |
| Starvation.EnoughPollsPublish | app/infrastructure/messaging/outbox_dispatcher.py:93-125 | how many polls: each takes fifty rows, less the refused ones that are not newer, out of the way |
| Starvation.OlderRowsStarve | app/infrastructure/messaging/outbox_dispatcher.py:106-125 | the failing side, over any run of any number of dispatchers: one strictly older refused row keeps a row out of the log for ever when batches are dropped, fifty when they go on |
| Draining.RoomInTheAnswer | app/infrastructure/messaging/outbox_dispatcher.py:95-101 | a row with fewer than fifty other waiting rows that are not newer is in every answer the query can give |
| Draining.OlderRowsCrowdOut | app/infrastructure/messaging/outbox_dispatcher.py:95-101 | fifty older rows that wait keep a row out of every answer the query can give |
| OutboxDispatching.OldestAreASnapshot | app/infrastructure/messaging/outbox_dispatcher.py:95-101 | filtering, stable sorting and cutting to the batch size yields an answer the query may give: undispatched rows, oldest first, and what is left out is not older |
| OutboxDispatching.OutboxDispatcher.Send | app/infrastructure/messaging/outbox_dispatcher.py:106-110 | the log has the row's message, on the row's topic under its aggregate's key with the row's fields, if the call completed or raised afterwards, and the process moves on, resumes or drops the batch accordingly |
| OutboxDispatching.OutboxDispatcher.MarkSent | app/infrastructure/messaging/outbox_dispatcher.py:112-125 | a completed commit leaves the row marked and its message in the log |
| OutboxDispatching.OutboxDispatcher.ReadBatch | app/infrastructure/messaging/outbox_dispatcher.py:95-103 | the query is answered by the table at that moment, after whatever others committed before; if it raises, nothing of it is left |
| OutboxDispatching.OutboxDispatcher.DispatchBatch | app/infrastructure/messaging/outbox_dispatcher.py:93-125 | the rows read are a proper snapshot of the table when the query was answered; of those whose turn came, all are published and marked except the ones whose turn raised; with no exception that is the whole snapshot |
| OutboxDispatching.OutboxDispatcher.RunLoop | app/infrastructure/messaging/outbox_dispatcher.py:85-91 | any number of polls, with any other processes around every query, publish and commit and in every pause, stays inside the step system and ends in a safe state |
| Envelope.RoundTrip | app/infrastructure/messaging/outbox_dispatcher.py:21-44 | what is published parses back to the row's own id, type, aggregate, payload and time exactly when the row has an id, a type and an object as payload; otherwise it is refused |
| Envelope.EventIdIsRowId | app/infrastructure/messaging/outbox_dispatcher.py:31-33 | the id consumers deduplicate on is the row's own |
| Envelope.RetryIsIdentical | app/infrastructure/messaging/outbox_dispatcher.py:21-44 | a retry publishes the very same message |
| LibraryConsumer.RowsAreAnExactlyOnceRun | app/infrastructure/messaging/kafka_consumer_base.py:59-88 | at-least-once refines exactly-once: after any deliveries, retries, crashes between the handler's commits and redeliveries, the rows are those of a machine that applied each event at most once, in log order, between the same hide requests; nothing below the committed offset is missing unless given up; every row's user has a profile |
| LibraryConsumer.StepKeeps | app/application/use_cases/profile/library_projector.py:28-56 | the invariant behind it survives every step from every state that has it |
| ConsumerGuarantees.OwnershipIsTheFold | app/application/use_cases/profile/library_projector.py:28-56 | if no message that matters was given up, the owned pairs are in every reachable state the plain fold of grants and revokes up to the committed offset, or one message further when its effect is already there |
| ConsumerGuarantees.OwnershipIsTheFoldIff | app/application/use_cases/profile/library_projector.py:28-56 | the exact condition, for each pair in every reachable state: ownership is the plain fold's if and only if the last message about the pair was not given up with something still to do |
| ConsumerGuarantees.RowsSayTheLastWord | app/application/use_cases/profile/library_projector.py:28-56 | in every reachable state somebody has a row for a game if and only if some message that took effect granted it and none since revoked it, unless a message that matters was given up |
| ConsumerGuarantees.CommittedLibrary | app/infrastructure/messaging/kafka_consumer_base.py:59-65 | once offset n is committed the owned pairs are the fold over exactly the first n messages |
| ConsumerGuarantees.RedeliveryChangesNothing | app/application/use_cases/profile/library_projector.py:28-44 | redelivering a message that took effect changes no row |
| ConsumerGuarantees.HiddenSurvives | app/infrastructure/db/repositories/profile_repository.py:195-203 | only a hide request for the game or its revocation changes a row's hidden flag; a redelivered grant does not |
| ConsumerGuarantees.EveryMessageIsAccountedFor | app/infrastructure/messaging/kafka_consumer_base.py:67-88 | every message below the committed offset was finished by a delivery of its own that handled it or failed max_retries times; no delivery makes more calls; what the handlers refuse never counts as handled |
| LibraryConsumer.MaxRetriesKept | app/infrastructure/messaging/kafka_consumer_base.py:67-68 | the bound on attempts is the same all along a run |
| KafkaConsumer.Consumer.Grant | app/application/use_cases/profile/library_projector.py:28-44 | profile, check and row, each with its own commit, interrupted anywhere: the handler ends where the step system says |
| KafkaConsumer.Consumer.Revoke | app/application/use_cases/profile/library_projector.py:46-56 | the deletion and its commit, interrupted anywhere, leave the handler where the step system says; an event without owner or game fails before any row is touched |
| KafkaConsumer.Consumer.NotOwnedYet | app/application/use_cases/profile/library_projector.py:41-44 | between the check and the insert nobody else can have added the game, so the insert never makes a second row |
| KafkaConsumer.Consumer.HandleWithRetry | app/infrastructure/messaging/kafka_consumer_base.py:67-88 | at most max_retries calls, with others in every pause between them; it returns after a success or after exactly max_retries failures |
| KafkaConsumer.Consumer.CommitHandled | app/infrastructure/messaging/kafka_consumer_base.py:65 | the offset moves only if the commit reached the broker, and the loop goes on only if it also returned |
| KafkaConsumer.Consumer.ConsumeOne | app/infrastructure/messaging/kafka_consumer_base.py:61-65 | the offset is committed only after handling, and moves by at most one |
| KafkaConsumer.Consumer.RunLoop | app/infrastructure/messaging/kafka_consumer_base.py:59-65 | any number of rounds of waiting while others go on and taking the next message stays inside the step system; one offset per message taken, and a later run starts again from the committed one |
| Library.AddRowGrants | app/infrastructure/db/repositories/profile_repository.py:110-120 | inserting a row for a game not yet owned grants exactly that game and keeps one row per game |
| Library.RemoveRowsRevokes | app/infrastructure/db/repositories/profile_repository.py:131-138 | deleting by user and game revokes exactly that game |
| Library.HideRowsHides | app/infrastructure/db/repositories/profile_repository.py:195-203 | setting the flag changes exactly that game's flag, and nothing if it is not owned |
| ProfileRepository.Repository.CreateIfMissing | app/infrastructure/db/repositories/profile_repository.py:95-108 | the first writer's row stays; an absent one is inserted with an empty avatar and offline |
| ProfileRepository.Repository.OwnsGame | app/infrastructure/db/repositories/profile_repository.py:122-129 | true exactly when some row has the user and the game |
| ProfileRepository.Repository.AddOwnedGame | app/infrastructure/db/repositories/profile_repository.py:110-120 | the table gains exactly this visible row, whatever is there already; the rows stay one per game if and only if the game had none |
| ProfileRepository.Repository.RemoveOwnedGame | app/infrastructure/db/repositories/profile_repository.py:131-138 | exactly the rows of this user and game are gone |
| ProfileRepository.Repository.SetHidden | app/infrastructure/db/repositories/profile_repository.py:195-203 | the one row with this user and game has the flag, no other row moved, and there is never a second one to choose from |
| ProfileRepository.Repository.UpsertTopPost | app/infrastructure/db/repositories/profile_repository.py:152-193 | the table is the one both transactions leave, or the one the first leaves when the process stops in between: the post's row has the score at the rank it had, or a new row has it at rank 0, and no other moved; one row per author and post is kept |
| ProfileRepository.RerankRows | app/infrastructure/db/repositories/profile_repository.py:185-193 | the loop over the ordered rows ranks the first five, deletes the others, and touches nobody else's |
| ProfileRepository.Repository.GetByUserId | app/infrastructure/db/repositories/profile_repository.py:60-83 | the games and items of this user and no others, the posts in rank order, or nothing when there is no profile |
| Shelf.ShelfIsConsistent | app/domain/profile/profile.py:49-55 | rising or falling scores: after any upserts the posts are distinct, sorted by score, carry their latest scores, and number min(5, posts seen) |
| Shelf.UpsertConsistent | app/domain/profile/profile.py:49-55 | one upsert keeps that, whatever the new score |
| Shelf.NewcomersGoBehindTies | app/domain/profile/profile.py:49-55 | one upsert keeps the other posts in their order, puts the candidate behind all that score at least as much and before all that score less, and cuts to five |
| Shelf.UpsertKeepsTopFive | app/domain/profile/profile.py:49-55 | one upsert keeps the shelf the true top five if and only if the post was not on it or no post left out scores higher than the new score |
| Shelf.EverythingIsEverything | app/domain/profile/profile.py:49-55 | the reference lists every post ever seen once, with its latest score, sorted |
| Shelf.ShelfIsTopFive | app/domain/profile/profile.py:49-55 | if no post's score ever falls, no evicted post beats a kept one |
| Shelf.IncrementalIsExact | app/domain/profile/profile.py:49-55 | if no score ever falls, the kept scores are those of "sort every post ever seen by latest score and take five", position by position |
| Shelf.TopFiveScoresAreUnique | app/domain/profile/profile.py:49-55 | two lists that both qualify as the five best have the same scores, whatever they do with ties |
| Shelf.FallingScoreHidesABetterPost | app/domain/profile/profile.py:49-55 | the hypothesis is needed: after any six posts that arrived highest first, the best one falling below the sixth leaves the shelf hiding a better post |
| Shelf.SixDescendingPostsExist | app/domain/profile/profile.py:49-55 | such six posts exist |
| ShelfOrder.RisingShelfIsTheHead | app/domain/profile/profile.py:49-55 | with strictly rising scores the shelf is the head of the full sorted list, element for element, ties included |
| ShelfOrder.CutCommutes | app/domain/profile/profile.py:49-55 | one upsert commutes with the cut to five unless the post ties with or falls below its old score |
| Ordering.SortIsStable | app/domain/profile/profile.py:52 | the sort keeps the order of tied elements |
| Ordering.TiesSettleTheOrder | app/domain/profile/profile.py:52 | two sorted lists that agree on the order within every tie are the same list |
| ShelfTable.LookupsAreTotal | app/infrastructure/db/repositories/profile_repository.py:153-160 | no run, however often it stops between the two commits, holds two rows for one author and post |
| ShelfTable.RowsAreCurrent | app/infrastructure/db/repositories/profile_repository.py:162-173 | every row carries its post's latest score, also after upserts that were cut off |
| ShelfTable.EvictedStayBeaten | app/infrastructure/db/repositories/profile_repository.py:175-193 | if scores never fall, a post without a row is matched or beaten by five that have one, after any cut-offs |
| ShelfRefinement.OneCompletedUpsertRestoresTheShelf | app/infrastructure/db/repositories/profile_repository.py:175-193 | after any number of cut-off upserts one completed one leaves at most five rows ranked 1..n; read by rank they are distinct posts, highest first, with latest scores |
| ShelfRefinement.RankOrderIsUnique | app/infrastructure/db/repositories/profile_repository.py:74-83 | ranks 1..n leave the database no choice in what a read returns |
| ShelfRefinement.TableShowsTheTopFive | app/infrastructure/db/repositories/profile_repository.py:152-193 | if scores never fall, what a visitor reads has the scores of the real top five, whatever the database does with ties and however many upserts were cut off |
| ShelfRefinement.RepositoryRefinesAggregate | app/infrastructure/db/repositories/profile_repository.py:152-193 | with ties broken alike, reading after the repository upsert gives exactly the list the aggregate upsert computes |
| ShelfRuns.TableKeepsTopFiveIff | app/infrastructure/db/repositories/profile_repository.py:152-193 | one completed upsert keeps what is read in rank order the real top five if and only if the post was not on the shelf or no post left out scores higher than the new score, however the database breaks ties |
| ShelfRuns.TableIsTheShelf | app/infrastructure/db/repositories/profile_repository.py:152-193 | over whole runs: after any completed upserts that break ties alike, reading in rank order gives the very list the aggregate holds after the same reactions |
| ShelfRuns.TiesCanBeAlike | app/infrastructure/db/repositories/profile_repository.py:175-184 | whatever the table is, an order that breaks ties as the aggregate does is among those the database may return |
| ProfileAggregate.Profile.UpsertTopPosts | app/domain/profile/profile.py:49-55 | the list of objects says what one upsert of the shelf says, ranks are 1..n, one object per place, and no object but the candidate is new |
| ProfileAggregate.SortProjects | app/domain/profile/profile.py:52 | sorting the objects sorts what they say, ties and all |
| ProfileAggregate.Profile.HideGame | app/domain/profile/profile.py:25-29 | the first entry of the game is hidden, every other entry keeps its flag |
| ProfileAggregate.Profile.UnhideGame | app/domain/profile/profile.py:31-35 | the first entry of the game is shown, every other entry keeps its flag |
| ProfileAggregate.Profile.VisibleGames | app/domain/profile/profile.py:22-23 | exactly the entries that are not hidden, in order |
| ProfileAggregate.HideHidesIff | app/domain/profile/profile.py:25-29 | hiding takes the game off the page if and only if no later entry of it is visible |
| ProfileAggregate.HideIsExact | app/domain/profile/profile.py:22-35 | with one entry per game hiding always hides, unhiding undoes it, and no other game is touched |
| LikePattern.LikeIsTheStandardRelation | app/infrastructure/db/repositories/user_repository.py:87-97 | the matcher decides exactly the partition relation of section 8.5 of ISO/IEC 9075-2 |
| LikePattern.FragmentIsOnePass | app/infrastructure/db/repositories/user_repository.py:43-49 | the three sequential replaces equal one pass that escapes each metacharacter once |
| LikePattern.FragmentWellFormed | app/infrastructure/db/repositories/user_repository.py:43-49 | the fragment is a well-formed pattern in front of any well-formed pattern |
| LikePattern.UnescapeFragment | app/infrastructure/db/repositories/user_repository.py:43-49 | unescaping gives the query back |
| LikePattern.FragmentInjective | app/infrastructure/db/repositories/user_repository.py:43-49 | different queries become different fragments |
| LikePattern.ReplacingBangLastLosesTheQuery | app/infrastructure/db/repositories/user_repository.py:49 | the order of the replaces matters: with `!` last, `%` would match what it must not |
| LikePattern.FragmentIsLiteral | app/infrastructure/db/repositories/user_repository.py:87-89 | an escaped fragment in front of any pattern matches its own text and nothing else |
| LikePattern.PrefixSearch | app/infrastructure/db/repositories/user_repository.py:88-94 | `fragment%` matches case-insensitively if and only if the query is a case-insensitive prefix, for every query, string and metacharacter-safe folding |
| LikePattern.WordSearch | app/infrastructure/db/repositories/user_repository.py:89-95 | `% fragment%` matches if and only if some space is followed by the query, for every query, string and metacharacter-safe folding |
| LikePattern.LowerIsPatternSafe | app/infrastructure/db/repositories/user_repository.py:93-95 | ASCII lower-casing is such a folding |
| RecipientSearch.SelectedMeansStartsAWord | app/infrastructure/db/repositories/user_repository.py:90-100 | the WHERE clause means: ACTIVE, not the caller, and the email starts with the query or a space plus the name contains a space plus the query -- the matcher of tests/test_suggest_recipients.py:46-49 |
| RecipientSearch.SuggestionsAreExact | app/application/use_cases/auth/suggest_recipients.py:25-29 | nobody for fewer than two characters; otherwise at most eight matching accounts, in name order, none repeated more than stored, and a match is left out only when eight are shown and none of them sorts after it |
| RecipientSearch.TypedTextDecides | app/application/use_cases/auth/suggest_recipients.py:25-29 | white space around what was typed does not count: fewer than two characters list nobody, and otherwise the first eight in name order of the ACTIVE accounts that fit are listed, and all if there are no more |
| RecipientSearch.WildcardsListNobody | app/infrastructure/db/repositories/user_repository.py:83-86 | a metacharacter typed anywhere in the query is a character: whoever is listed has it in the email or the name |
| Text.StripIsTheText | app/application/use_cases/auth/suggest_recipients.py:26 | stripping gives the one text without white space at its ends that the input is a padding of |
| Text.StripTwice | app/application/use_cases/auth/suggest_recipients.py:26 | stripping in the use case and again in the repository strips once |
| Text.TheNormalForm | app/domain/auth/user.py:27 | the stored form of an address is the one spelling of it without capitals and outer white space |
| Text.OneNormalFormIff | app/application/use_cases/auth/register_user.py:14 | two addresses have one normal form if and only if they differ in nothing but the case of letters and the white space around them |
| Text.NormalizeTwice | app/domain/auth/user.py:27 | the normal form of an address is its own normal form |
| Accounts.EventLogDeterminesStore | app/domain/auth/user.py:23-127 | after any use cases, stopped between commits or not, folding an account's committed events gives exactly its stored role and state, and the events are a legal history of the account machine, each grant naming the role really held before |
| Accounts.CreatedAccountsAreActiveOrBanned | app/domain/auth/user.py:23-101 | an account created by either factory is never PENDING or REJECTED |
| Accounts.HistoryStaysActiveOrBanned | app/domain/auth/user.py:79-101 | no legal history that starts with a registration contains a registration decision |
| Accounts.AddressesStayKeys | app/application/use_cases/auth/register_user.py:13-25 | no two accounts share an address, and each is stored in the form it is looked up by, over every run |
| RoleRequests.ApprovalsHaveTheirOwnGrant | app/application/use_cases/auth/decide_role_request.py:12-31 | wherever the process stops, requests stored as APPROVED are matched one to one with committed grants for the requester, with the requested role and the same decider |
| RoleRequests.GrantIsCommittedFirst | app/application/use_cases/auth/decide_role_request.py:20-31 | stopping between the commits leaves the grant and the new role committed and the request open |
| RoleRequests.DecidedForGood | app/domain/auth/role_request.py:30-42 | a decided request never changes again, over any continuation |
| RoleRequests.DecidedIffRanThrough | app/application/use_cases/auth/decide_role_request.py:12-31 | over every run a request is stored as APPROVED if and only if some approval passed its checks and was not stopped between its commits, and as rejected if and only if some rejection passed its checks |
| RoleRequests.GrantIsBackedIffRanThrough | app/application/use_cases/auth/decide_role_request.py:20-31 | the converse of the approval order with its exact condition: a grant committed by a decision stays in the outbox, and its request ends up APPROVED if and only if some decision on it ran through both commits |
| RoleRequests.StoppedApprovalCanBeDeclined | app/application/use_cases/auth/decide_role_request.py:12-31 | the failing input: an approval that stopped after its first commit, followed by a rejection, leaves the role granted and the request declined |
| RoleProvenance.GrantsAreJustified | app/application/use_cases/auth/grant_role.py:11-21 | every committed role grant was made by an administrator, or by staff approving an open request of that account for that very role, when it held the role named as the old one |
| RoleProvenance.RequestsWereOpened | app/application/use_cases/auth/request_role.py:14-28 | every stored request was opened by the account it is about, for a role the policy let it ask for then |
| AuthEntities.User.Register | app/domain/auth/user.py:23-46 | the new object is ACTIVE and BASIC_USER under the normal address, with exactly the event that says so queued |
| AuthEntities.User.RegisterSuperAdmin | app/domain/auth/user.py:48-77 | the new object is ACTIVE and ADMIN under the normal address, and the queued event says ADMIN and ACTIVE too |
| AuthEntities.User.ApproveRegistration | app/domain/auth/user.py:79-83 | only a PENDING account becomes ACTIVE and queues its event; any other is refused and nothing moves |
| AuthEntities.User.RejectRegistration | app/domain/auth/user.py:85-89 | only a PENDING account becomes REJECTED and queues its event; any other is refused and nothing moves |
| AuthEntities.User.Ban | app/domain/auth/user.py:91-95 | only an ACTIVE account becomes BANNED and queues its event; any other is refused and nothing moves |
| AuthEntities.User.Unban | app/domain/auth/user.py:97-101 | only a BANNED account becomes ACTIVE and queues its event; any other is refused and nothing moves |
| AuthEntities.User.ChangeRole | app/domain/auth/user.py:103-114 | the role is replaced and the queued event names the old and the new one |
| AuthEntities.User.PullEvents | app/domain/auth/user.py:125-127 | the queue is handed over whole and left empty |
| AuthEntities.RoleRequest.Approve | app/domain/auth/role_request.py:30-35 | an open request takes status, decider and note; a decided one is refused unchanged |
| AuthEntities.RoleRequest.Reject | app/domain/auth/role_request.py:37-42 | an open request becomes rejected with its decider and note; a decided one is refused unchanged |
| UserRepository.Repository.GetByEmail | app/infrastructure/db/repositories/user_repository.py:61-64 | a fresh object equal to the row with this address, or nothing exactly when no row has it |
| UserRepository.Repository.Save | app/infrastructure/db/repositories/user_repository.py:125-150 | the row and one outbox row per event, in order, in one commit; refused as a whole exactly when another account has the address |
| UserRepository.Repository.SaveRoleRequest | app/infrastructure/db/repositories/user_repository.py:167-191 | the request row and its outbox rows in one commit |
| UserRepository.Repository.RecordLoginAudit | app/infrastructure/db/repositories/user_repository.py:152-154 | exactly one audit row is appended |
| CommandMeanings.CommandMeans | app/domain/auth/role_policy.py:7-31 | every account use case, for every input: who may call it, with the roles written out; the one row that moves and how; the one event committed with it; and each refusal, which changes nothing -- banning and unbanning, approving and rejecting, granting, asking for and deciding roles, registering and seeding |
| CommandMeanings.EverySpellingIsTaken | app/application/use_cases/auth/register_user.py:13-25 | once an address has been registered, registering any spelling of it, in other capitals or with spaces around it, is refused as a duplicate, over any continuation of the run |
| AuthUseCases.RegisterUser | app/application/use_cases/auth/register_user.py:13-25 | refused as a duplicate if and only if an account is known under the address however either was typed; otherwise a new ACTIVE basic user with the given hash under the normal spelling, and its event in the same commit |
| AuthUseCases.SeedSuperAdmin | app/infrastructure/db/bootstrap.py:11-33 | the tables end as the seeding command leaves the store: nothing when the configured address exists, else an ADMIN with its event; a configured address that is not in normal form is looked up as configured and fails on the unique index when its normal form is taken |
| AuthUseCases.BanUser | app/application/use_cases/auth/ban_user.py:11-24 | answers Ok if and only if the caller is SUPPORT or ADMIN and the target exists and is ACTIVE (BANNED, to unban); then only its state moves, to BANNED (back to ACTIVE), with one event naming target, actor and reason; every other case has its own error and writes nothing |
| AuthUseCases.GrantRole | app/application/use_cases/auth/grant_role.py:11-21 | administrators only: the target has the new role and the event names the old one; every refusal writes nothing |
| AuthUseCases.DecideRegistration | app/application/use_cases/auth/approve_registration.py:11-31 | answers Ok if and only if the caller is SUPPORT or ADMIN and the target exists and is PENDING; approving makes it ACTIVE, rejecting REJECTED, each with its event; every other case has its own error and writes nothing |
| AuthUseCases.RequestRole | app/application/use_cases/auth/request_role.py:14-28 | a basic user may ask to become a developer or support, everybody else for any role but their own; the open request and its event are stored, and every refusal writes nothing |
| AuthUseCases.DecideRoleRequest | app/application/use_cases/auth/decide_role_request.py:12-31 | SUPPORT or ADMIN decide an open request once: declining touches the request alone, approving gives the role with its event and then stores the decision, or stops in between; each refusal has its own error and writes nothing |
| AuthEvents.RowDeterminesTheEvent | app/domain/auth/events.py:17-36 | a row loses nothing: equal envelopes come from equal committed events |
| Tokens.AcceptedExactlyInItsWindow | app/infrastructure/security/jwt_provider.py:67-105 | a signed token is accepted exactly under its own type, from the second it was signed in and for as many whole seconds as its lifetime (sections 4.1.4 to 4.1.6 of RFC 7519), so never longer than the lifetime and less than a second shorter |
| Tokens.TokensSay | app/infrastructure/security/jwt_provider.py:46-78 | an access token names the account and its role for 900 seconds, a refresh token the account and no role for 604800, both from this issuer for this audience |
| Tokens.AcceptedIff | app/infrastructure/security/jwt_provider.py:86-105 | any signed token, whoever signed it, is accepted if and only if it is of the expected kind, from this issuer, for this audience, and neither before nor after the times it names |
| Tokens.Lifetimes | app/infrastructure/security/jwt_provider.py:46-105 | so an access token is good from the second it was signed in for exactly 900 seconds, a refresh token for 604800, and neither as the other |
| Tokens.RefreshTokensGrantNothing | app/infrastructure/security/jwt_provider.py:57-65 | a refresh token is never an access token and carries no role |
| Tokens.WholeSeconds | app/infrastructure/security/jwt_provider.py:67-78 | truncating now and now plus a whole-second lifetime commute |
| Sessions.AcceptedTokensAreRecent | app/infrastructure/security/jwt_provider.py:46-105 | bounded staleness: in every run, a token accepted as access token was signed less than 15 minutes ago by a request that had read the account as ACTIVE with exactly the role on the token |
| Sessions.OldFactsRunOut | app/application/use_cases/auth/login.py:18-43 | an account not ACTIVE with a role for the last 15 minutes (plus the time a request takes from reading to signing, zero when use cases are atomic) has no accepted token with that role |
| Sessions.LoggedOutStaysOut | app/application/use_cases/auth/refresh_token.py:16-33 | after any number of logouts of a token this service signed, and of others that do not name its id with another expiry, a refresh gets past the blacklist only once the key has lapsed, so in the last second before exp or later; if the key outlives the token, only by expiring between being decoded and being looked up |
| Sessions.StepKeeps | app/application/use_cases/auth/refresh_token.py:16-33 | the invariant behind the three survives every step, with any other steps between a request's readings |
| Revocation.LapseAgainstExpiry | app/application/use_cases/auth/logout.py:17-18 | a logout's key lapses less than a second before the token expires; it lapses no earlier if and only if the truncated fraction is made up by the way to Redis or under a second was left; always for a logout on a whole second |
| Revocation.RefusedWhileTheKeyLives | app/application/use_cases/auth/refresh_token.py:22-24 | until the key lapses, and from exp on, every refresh is refused |
| Revocation.RevokedForGood | app/application/use_cases/auth/logout.py:9-18 | a logout holds for ever, against refreshes that take up to a given time, if and only if the key outlives the token by that time or the token had expired |
| Revocation.AnotherExpiryReopens | app/application/use_cases/auth/logout.py:15-18 | the failing input for logouts that disagree on the expiry: the second one shortens the key, and the token passes again |
| Revocation.HalfASecondIsLeftOpen | app/application/use_cases/auth/logout.py:17 | a logout half a second past the whole leaves the last half second of the token open |
| SessionUseCases.LoginUseCase.Execute | app/application/use_cases/auth/login.py:18-43 | tokens if and only if an account is known under the address however it is typed, the password fits its hash and it is ACTIVE; its state if and only if only that is in the way; one answer for an unknown address and a wrong password; the tokens are that account's with its role, and exactly one audit row tells whether there were any |
| SessionUseCases.RefreshTokenUseCase.Execute | app/application/use_cases/auth/refresh_token.py:16-33 | a new access token with the current role exactly for a live, unrevoked refresh token of an existing ACTIVE account; each other case with its own error |
| SessionUseCases.LogoutUseCase.Execute | app/application/use_cases/auth/logout.py:9-18 | an accepted token with jti and exp gets a key for max(int(exp - now), 1) seconds, which lapses less than a second before it; anything else changes nothing |
| SessionServer.Server.LogIn | app/application/use_cases/auth/login.py:18-43 | the same, with others going on while bcrypt runs and while the audit row is committed: the answer is that of the account and the password as read, and a successful sign-in is a LogIn step of the session system that issues exactly the returned tokens |
| SessionServer.Server.Refresh | app/application/use_cases/auth/refresh_token.py:16-33 | with others going on before the blacklist answers and before the account is read, a successful refresh of any signed token, this service's or not, is a Refresh step and issues exactly the returned token |
| SessionServer.Server.LogOut | app/application/use_cases/auth/logout.py:9-18 | decoded and measured in one go and set in Redis when its turn comes, a logout of any signed token that names an id and an expiry is a LogOut step, and of any other token changes nothing |
| SessionUseCases.TokenBlacklist.Revoke | app/infrastructure/cache/redis_token_blacklist.py:13-14 | exactly this token's key is set, to lapse after the given seconds |
| SessionUseCases.TokenBlacklist.IsRevoked | app/infrastructure/cache/redis_token_blacklist.py:16-17 | true exactly while the token's key has not lapsed |
| Redis.KeysNeverCollide | app/infrastructure/cache/redis_token_blacklist.py:6-17 | distinct tokens and distinct users have distinct keys, and no blacklist key is a presence key |
| Presence.OnlineIffRecentBeat | app/infrastructure/cache/redis_presence_store.py:16-20 | a user is online at t exactly when a heartbeat of theirs fell in the last 30 seconds |
| Presence.AnnouncesIffQuiet | app/application/use_cases/profile/update_presence.py:14-24 | overlapping or not, a heartbeat announces its user if and only if no key of theirs set before it looked is still live |
| Presence.AnnouncementsStartRuns | app/application/use_cases/profile/update_presence.py:14-24 | so it announces exactly when it is the first of a maximal run with gaps under 30 seconds, as far as it could see |
| Presence.ApartIffNotOverlapping | app/application/use_cases/profile/update_presence.py:15-18 | an announcement comes 30 seconds after another heartbeat of its user if and only if it did not look before that one's key was set |
| Presence.TwoTabsBothAnnounce | app/presentation/rest/presence_ws_controller.py:65-79 | the failing input: two heartbeats that both look before either has set its key both announce, however close they are |
| Presence.AnnouncementsAreApart | app/application/use_cases/profile/update_presence.py:18-24 | when the heartbeats of a user follow one another, two announcements are at least 30 seconds apart |
| Presence.AnnouncedAndUnbroken | app/application/use_cases/profile/update_presence.py:14-24 | every heartbeat belongs to an announced run, and since that announcement the user was never offline for longer than a heartbeat takes from looking to setting its key |
| Presence.GapIsClosedIff | app/application/use_cases/profile/update_presence.py:15-16 | between one key and the next the user is online without a break if and only if the second is set before the first lapses, whether or not it announced |
| Presence.RunIsUnbrokenIff | app/application/use_cases/profile/update_presence.py:15-16 | a whole stretch of heartbeats is unbroken if and only if no gap in it is too long |
| Presence.LateSetLapsesSilently | app/application/use_cases/profile/update_presence.py:15-18 | the failing input: a heartbeat that looks while the key is live and sets it after it lapsed announces nothing, and the user was offline in between |
| PresenceService.UpdatePresenceUseCase.Execute | app/application/use_cases/profile/update_presence.py:14-24 | with any heartbeats of other sockets between its look and its set, the key is refreshed and its own user announced exactly at the start of a run; a failed call is not made up for later |
| PresenceService.PublishedAreTold | app/application/use_cases/profile/update_presence.py:14-24 | exactly the users are announced of whom some heartbeat found no key of theirs set within the 30 seconds before its look, and whose event got through |
| PresenceService.UpdatePresenceUseCase.IsOnline | app/application/use_cases/profile/get_profile.py:10-17 | the profile page shows online exactly when a heartbeat fell in the last 30 seconds |
| PresenceService.RevokingKeepsSaying | app/infrastructure/cache/redis_presence_store.py:6-20 | revoking tokens in the same database touches nobody's presence |
| Topics.TopicsConfluent | app/infrastructure/messaging/consumers/profile_event_consumers.py:35-109 | two interleavings of the same per-topic sequences, hide requests included, give the same library, the same reactions per author, the same bag of items and set of profiles |
| Topics.FirstWriterNames | app/infrastructure/db/repositories/profile_repository.py:95-108 | a profile's display name is that of the first event that would create it, whatever comes later |
| Topics.ProfileIffNamed | app/infrastructure/db/repositories/profile_repository.py:95-108 | a profile exists exactly once some handled event named its user |
| Topics.NamesDependOnTheOrder | app/application/use_cases/profile/user_sync_projector.py:8-10 | display names really do depend on the interleaving |
| Topics.EveryRowHasAProfile | app/application/use_cases/profile/inventory_projector.py:11-22 | in every state every projected row's user has a profile |
| Topics.RoutedIsProper | app/infrastructure/messaging/consumers/profile_event_consumers.py:43-76 | whatever is on a topic, its consumer touches only its own part of the read model and the profiles |
| ReadModel.ReadByRank | app/infrastructure/db/repositories/profile_repository.py:74-83 | the shelf rows that reactions left read, by rank, as distinct posts ranked 1..n, highest first, with their latest scores, as many as fit; if no score fell, with the scores of the real top five |
| ReadModel.InterleavingsAgree | app/infrastructure/messaging/consumers/profile_event_consumers.py:82-109 | the rows themselves agree: same owners and hidden flags, as many rows of each item, same profiles, and shelves whose rank-order reads are both consistent with the same latest scores, with equal scores if none ever fell |
| ReadModel.EffectRefines | app/infrastructure/db/repositories/profile_repository.py:95-193 | handling a message changes what the rows of all four tables say exactly as its projection says: names, library, items, and the shelf rows as the index of one more reaction |
| ReadModel.LibraryIsTheFold | app/application/use_cases/profile/library_projector.py:28-56 | over all topics the library owns exactly what the fold of grants and revokes owns |
| ProfileEvents.GiftsGoToTheOwner | app/application/use_cases/profile/library_projector.py:59-66 | when a grant names both an owner and a buyer, the owner gets the game |
| MessageMeanings.EffectMeans | app/infrastructure/messaging/consumers/profile_event_consumers.py:35-109 | every message on every topic, by its fields: whose profile appears and under which name, whose game, item or post is there or gone afterwards, which missing field raises before or after the profile, and that nothing else moves; foreign types and other services' events change nothing |
| MessageMeanings.ReactionsAreTheAuthors | app/application/use_cases/profile/top_posts_projector.py:11-28 | a reaction to somebody else's post gives the author the profile and the post at its score, unless five posts at least as good are there, and the reactor neither a profile nor a row |
| ProfileProjectors.ProfileConsumers.Handle | app/infrastructure/messaging/consumers/profile_event_consumers.py:35-76 | the message means for the tables what its fields say: each type on its own topic has exactly its rows as effect, malformed envelopes and missing fields raise, foreign event types are ignored |
| ProfileProjectors.ProfileConsumers.SyncUser | app/application/use_cases/profile/user_sync_projector.py:8-10 | the profile is created if absent |
| ProfileProjectors.ProfileConsumers.GiveItemTo | app/application/use_cases/profile/inventory_projector.py:11-22 | profile first, then exactly one new item row; a missing item or game raises after the profile was committed |
| ProfileProjectors.ProfileConsumers.ShelvePostOf | app/application/use_cases/profile/top_posts_projector.py:11-28 | the author's profile and shelf, never the reactor's; a missing field raises after the profile was committed |
| ProfileProjectors.ProfileConsumers.GrantGame | app/application/use_cases/profile/library_projector.py:28-44 | profile, then a new row exactly when the game is not owned yet |
| ProfileProjectors.ProfileConsumers.RevokeGame | app/application/use_cases/profile/library_projector.py:46-56 | exactly the rows of the owner and the game go |
| Pipeline.MessagesAreTheEvents | app/infrastructure/db/repositories/user_repository.py:124-151 | from a use case to the wire, over every joint run: each message is a committed event's, on user-events, keyed by the account or the role request it is about, with its own id, type and payload fields; and each event whose row is marked dispatched has such a message |
| Pipeline.RegistrationsBecomeProfiles | app/infrastructure/messaging/consumers/profile_event_consumers.py:35-109 | the whole pipeline, in one run of use cases that may stop and dispatchers that may fail, crash and publish twice, with the other topics' events in any interleaving: once every row is dispatched and the log consumed, every account created here has a profile, under the registered name if and only if the first event naming the user gives it; anybody else's profile comes from another topic |
| Pipeline.TheTableIsOne | app/infrastructure/db/repositories/user_repository.py:125-150 | over every such run the relay reads exactly the table the use cases write |
| Pipeline.HalvesAreRuns | app/infrastructure/messaging/outbox_dispatcher.py:93-125 | each half of such a run is a run of its own system, so every theorem about accounts and about the relay holds of it |
| Onboarding.RegistrationsAlone | app/infrastructure/messaging/consumers/profile_event_consumers.py:43-51 | a consumer of what is on user-events alone: exactly the accounts created here have a profile, each under the name it registered with |
| Onboarding.CommitsFeedTheRelay | app/infrastructure/db/repositories/user_repository.py:125-150 | every commit of a use case, in any state of the relay over the same table, is a commit the relay's system allows, and the two go on talking about one table |
| Onboarding.RelayingKeepsTheTable | app/infrastructure/messaging/outbox_dispatcher.py:112-118 | relaying never changes what the use cases wrote |
| Onboarding.OwnEventsProject | app/infrastructure/messaging/consumers/profile_event_consumers.py:21-51 | of this service's own events the consumer acts on registrations only, and reads them as written |
| Onboarding.RunAnnounces | app/infrastructure/db/repositories/user_repository.py:125-150 | the outbox announces exactly the accounts created here, each by the name it is stored under |

## Left out

- Case folding is any character-by-character folding that leaves metacharacters and the space alone; foldings that change the length of a string, Unicode whitespace and normalisation are not modelled.
- The collation of ORDER BY display_name is any integer key; the database's scan order decides ties.
- JSON text and UTF-8: encoding and decoding is an inverse pair, numbers are integers, `str` of a value that is not text is any function.
- Column lengths and types: a string longer than its column, and everything else the database refuses apart from the unique address, non-text ids and names, and non-integer scores.
- Cryptography: a good signature is a tag on a payload, which whoever holds the secret may put there; bcrypt is an abstract predicate, generated ids are new. The scopes claim is always the same and is left out.
- Floating-point rounding of `exp - time.time()` and Redis rounding expiry to milliseconds: clock readings are exact microseconds, of one clock read everywhere.
- Kafka: partitions, rebalancing and consumers that were fenced off; each topic has one consumer and one log, and redelivery starts at the committed offset. Duplicate events produced upstream are different messages.
- Redis losing data, and PostgreSQL below the level of atomic commits.
- Topics.TopicsConfluent: handles each message once. Redelivery is covered for the library consumer only; exactly-once item rows are not promised by the code. Shelves agree up to ties, which the database breaks as it likes.
- Two requests that read and write the same account or role request at the same time; account use cases are atomic but for the stop between the two commits of a decision. Sign-in, refresh and logout are not: anything may happen between their readings.
- PresenceService.UpdatePresenceUseCase.Execute: the events of two heartbeats reach the topic in the order of their keys.
- KafkaConsumer.Consumer.RunLoop: runs for a given number of rounds and takes the decoded log as given; the lengths of pauses are not modelled, here and in OutboxDispatching.OutboxDispatcher.RunLoop.
- Timestamps of rows (acquired_at, updated_at, dispatched_at) and the avatar; the audit row's own id and time.
- FastAPI routes, DTOs, settings, logging, metrics and health checks; listing users, exact recipient lookup, avatar setting and abuse flagging, which would only add easy members.
