# Movie club: a Dafny model of the weekly lifecycle

The movie club is a small web app. Members propose one movie each. Once every
member has proposed, the movies are shuffled into a week-by-week schedule. Each
week's movie is first *vetted*: a member who has already seen it can veto it,
and everyone else acknowledges "not seen". Then it is *watched* and scored.
When everyone has scored it, the club moves on to the next week. When the
schedule runs out, a new round of proposals begins.

The code has two versions of this lifecycle, and both are modelled:

- **The library** (`src/lib/state-machine.ts`, module `StateMachine`). Here
  movies move PROPOSED → QUEUED → REJECTED | COMPLETED. The active movie is
  the QUEUED movie of the current week. "Not seen" answers and ratings are
  both rows of `votes`, told apart by their `comment` column.
- **The routes** (`src/app/api/{vetting,votes,movies}/route.ts`, modules
  `VettingRoute`, `VotesRoute` and `MoviesRoute`). Here the movie with status
  ACTIVE is the active one, "not seen" answers are rows of
  `vetting_responses`, and a scored movie is WATCHED.

Also modelled:

- the member registry's server actions (`src/app/actions.ts`, `Actions`);
- saving and removing push subscriptions (`src/app/api/push/subscribe/route.ts`,
  `PushSubscribe`);
- the reminder cron (`src/app/api/cron/push-reminders/route.ts`,
  `PushReminders`).

How the database is modelled:

- The database is one object, `Schema.Database`, with a field per table and
  the two `app_state` rows. `current_phase` and `current_week` are each an
  `Option`, where `None` means the key row is absent.
- `Tables()` is a snapshot of the database as a `Store` value.
- Row ids of movies and users are their positions in their table.
- The difference between an UPDATE of an `app_state` key (nothing happens when
  the row is absent) and an upsert is kept. The library updates everywhere
  except in `scheduleMovies`. The routes always upsert.

How each handler is modelled:

- For every handler that changes state there is a pure `…Step` function from
  the store before to the store after, plus the reply or the thrown error.
- There is also a method that does the handler's reads and writes on a
  `Database`, in the same order as the code. Each such method is proved to
  end in exactly the state its `…Step` function gives.
- The properties are lemmas about the `…Step` functions.
- Read-only handlers (`getAppState`, `getActiveMovie`, the GETs, `loginAction`)
  are pure functions on a `Store`.

Inputs from outside:

- The session is a parameter: `Some(userId)` when the request has a valid
  session.
- The randomness of the shuffle is an `entropy: seq<nat>` parameter. The
  model proves that every result is a permutation of the PROPOSED movies, and
  that every permutation can come out.
- For the cron, the inputs are the clock, `CRON_SECRET`, the request's header
  and query parameter, and the results of the library queries the code calls.
  The reminders it would send are an output.

Where the two versions disagree, the model follows each file's own code:

- A veto ("seen") in the library rejects the movie and leaves the phase at
  VETTING (`StateMachineProperties.RejectionLeavesPhaseAtVetting`). The
  vetting route also sets the phase back to SUBMISSION.
- The library records a "not seen" answer every time it is given. Repeat
  answers count toward the quorum
  (`StateMachineProperties.NotSeenIsNotDeduplicated`). The route keeps one
  row per member and movie (`VettingRoute.NotSeenIsIdempotent`).
- The votes route appends a row on every vote, so a member's repeated votes
  all count (`VotesRoute.RepeatedVotesCount`). The library upserts one RATING
  row per member (`StateMachineProperties.RecordRatingUpserts`).
- At quorum:
  - The library sets the week to `current_week + 1` with a missing row read
    as 0. It activates the QUEUED movie of that week, or else goes back to
    SUBMISSION and puts the week back to 0.
  - The votes route reads a missing week as 1. It activates a *PROPOSED*
    movie of the new week, or else goes to SUBMISSION and leaves the advanced
    week in place.

## Model

| member | source | states |
|---|---|---|
| StateMachine.GetAppState | src/lib/state-machine.ts:7-15 | The phase and week are the stored values. A missing phase reads as SUBMISSION and a missing week as 0. |
| StateMachine.SubmitMovie | src/lib/state-machine.ts:17-46 | Performs submitMovie's reads and writes on the database. The resulting tables and outcome are exactly `SubmitMovieStep` of the tables before, and the ids stay the table positions. |
| StateMachineProperties.SubmitMovieContract | src/lib/state-machine.ts:17-46 | Outside SUBMISSION it throws "Not int submission phase" and changes nothing. A first submission without a title throws SQLite's NOT NULL error and changes nothing. Otherwise it upserts the member's proposal. It schedules exactly when the PROPOSED count, including the new one, reaches the member count and there is at least one member. Only `movies` and `app_state` change. |
| StateMachineProperties.ResubmitUpserts | src/lib/state-machine.ts:21-35 | A member's existing PROPOSED row gets the title and the cover where each is given; its other columns, all other rows and the row count are unchanged. Without such a row, exactly one row is appended: the next id, the title and cover, the member as proposer, PROPOSED, and no description, year, week or vetting start. |
| StateMachineProperties.ResubmitKeepsOneProposalPerMember | src/lib/state-machine.ts:21-35 | submitMovie never gives a member a second PROPOSED movie. |
| StateMachine.ProposedIdsAreTheProposals | src/lib/state-machine.ts:49 | `props` lists every PROPOSED movie exactly once and nothing else. |
| StateMachine.ShuffleIsPermutation | src/lib/state-machine.ts:50 | The shuffle keeps the length and the multiset of its input. |
| StateMachine.ShuffleKeepsDistinct | src/lib/state-machine.ts:50 | A shuffled list without repetitions has no repetitions. |
| StateMachine.EveryOrderIsReachable | src/lib/state-machine.ts:50 | Every rearrangement of the PROPOSED ids is produced for some random choices. |
| StateMachine.AssignWeeksAt | src/lib/state-machine.ts:52-56 | For an order without repetitions, the movie in place k gets week k+1 and status QUEUED, its other columns unchanged. |
| StateMachine.AssignWeeksLeavesOthers | src/lib/state-machine.ts:52-56 | A movie the order does not name is left as it was. |
| StateMachine.AssignWeeksKeepsColumns | src/lib/state-machine.ts:53-55 | The loop writes only `weekNumber` and `status`. |
| StateMachine.ScheduleMovies | src/lib/state-machine.ts:48-63 | The loop over the shuffled proposals leaves the movies table equal to the week assignment of that order, with invariants. The phase is upserted to VETTING and the week to 1. |
| StateMachineProperties.ScheduleQueuesEveryProposal | src/lib/state-machine.ts:48-63 | Every PROPOSED movie becomes QUEUED with a week in 1..N. No two share a week and every week in 1..N is used. Every other movie and column is unchanged. The phase is VETTING and the week 1. |
| StateMachineProperties.ScheduledWeeksDiffer | src/lib/state-machine.ts:52-56 | Two PROPOSED movies never get the same week. |
| StateMachineProperties.ScheduledWeekTaken | src/lib/state-machine.ts:52-56 | Every week from 1 to N goes to some PROPOSED movie. |
| StateMachine.GetActiveMovie | src/lib/state-machine.ts:65-72 | None while the week is 0. Otherwise the first QUEUED movie of the current week, and None exactly when there is no such movie. |
| StateMachine.SubmitVetting | src/lib/state-machine.ts:74-98 | Performs submitVetting on the database. The outcome and tables are exactly `SubmitVettingStep`. |
| StateMachineProperties.SubmitVettingContract | src/lib/state-machine.ts:74-98 | With no active movie it throws "No active movie" and changes nothing. "Seen" rejects the active movie and nothing else. "Not seen" appends one VETTING_NOT_SEEN row and updates the phase to WATCHING exactly when those rows reach the member count. |
| StateMachineProperties.NotSeenIsNotDeduplicated | src/lib/state-machine.ts:81-92 | Two "not seen" answers from one member leave two rows, and both count. |
| StateMachineProperties.RejectionLeavesPhaseAtVetting | src/lib/state-machine.ts:78-79 | After a veto the phase is still VETTING, so submitMovie and submitVote then refuse. If, in addition, no other movie is QUEUED for the week, submitVetting also refuses. |
| StateMachine.SubmitVote | src/lib/state-machine.ts:100-146 | Performs submitVote on the database. The outcome and tables are exactly `SubmitVoteStep`. |
| StateMachine.CloseVoting | src/lib/state-machine.ts:128-146 | The quorum branch on the database ends in `CompleteMovie` of the tables before. |
| StateMachineProperties.RecordRatingUpserts | src/lib/state-machine.ts:107-122 | The member's RATING row for the movie gets the new score, or is appended when missing. No other row changes. |
| StateMachineProperties.RecordRatingKeepsOneRatingPerMember | src/lib/state-machine.ts:107-122 | submitVote keeps at most one RATING row per member and movie. |
| StateMachineProperties.QuorumAdvancesTheWeek | src/lib/state-machine.ts:123-146 | At quorum the movie is COMPLETED with its other columns kept, and every other movie unchanged. The week becomes the old week plus one. With a QUEUED movie for that week, the phase is VETTING and that movie is active. Without one, the phase is SUBMISSION and the week 0. |
| StateMachineProperties.SubmitVoteContract | src/lib/state-machine.ts:100-146 | Outside WATCHING, or with no active movie, it throws and changes nothing. Otherwise it upserts the rating. Below quorum nothing else changes. |
| Http.FirstActive | src/app/api/vetting/route.ts:13-16 | The first movie with status ACTIVE, and None exactly when there is none. |
| VettingRoute.HasResponded | src/app/api/vetting/route.ts:21-27 | True exactly when the member has a response row for the movie. |
| VettingRoute.VettingGet | src/app/api/vetting/route.ts:8-43 | 401 without a session. An empty body without an ACTIVE movie. Otherwise the movie, whether this member has responded, and the responses counted against the number of members. |
| VettingRoute.VettingPost | src/app/api/vetting/route.ts:45-100 | Performs POST on the database. The reply and tables are exactly `VettingPostStep`. |
| VettingRoute.VettingPostContract | src/app/api/vetting/route.ts:45-100 | 401 or 400 change nothing. "Seen" rejects the ACTIVE movie, keeping its other columns, sets SUBMISSION and changes no other table. "Not seen" adds a row only when the member has none. It sets WATCHING exactly when the responses reach the member count. |
| VettingRoute.NotSeenIsIdempotent | src/app/api/vetting/route.ts:70-96 | A second "not seen" from the same member changes nothing. |
| VettingRoute.VettingPostKeepsOneResponsePerMember | src/app/api/vetting/route.ts:71-84 | POST keeps at most one response row per member and movie. |
| VotesRoute.StoredWeek | src/app/api/votes/route.ts:37-38 | The stored week, with 1 for a missing row. |
| VotesRoute.VotesPost | src/app/api/votes/route.ts:8-67 | Performs POST on the database. The reply and tables are exactly `VotesPostStep`. |
| VotesRoute.FinishVoting | src/app/api/votes/route.ts:31-64 | The quorum branch on the database ends in `WatchMovie` of the tables before. |
| VotesRoute.VotesPostContract | src/app/api/votes/route.ts:8-31 | 401 or 400 change nothing. Otherwise exactly one vote row is appended and the movie's count grows by one. Only votes, movies and `app_state` can change. Below the member count nothing but the vote changes. |
| VotesRoute.VotesPostAtQuorum | src/app/api/votes/route.ts:31-41 | At quorum the movie is WATCHED with its other columns kept, and the week is the stored week plus one. |
| VotesRoute.VotesPostActivatesNextMovie | src/app/api/votes/route.ts:43-58 | When a PROPOSED movie has the new week, the first such movie becomes ACTIVE with its other columns kept, and the phase VETTING. No other movie changes. |
| VotesRoute.VotesPostEndsTheSchedule | src/app/api/votes/route.ts:59-63 | Without such a movie the phase is SUBMISSION and only the watched movie changes. |
| VotesRoute.RepeatedVotesCount | src/app/api/votes/route.ts:18-31 | Below quorum, two votes by one member add two rows, and both count. |
| MoviesRoute.ShownState | src/app/api/movies/route.ts:13-17 | The shown phase and week are the stored values, with SUBMISSION and 1 when missing. |
| MoviesRoute.MySubmission | src/app/api/movies/route.ts:20-24 | A movie the member proposed that is neither COMPLETED nor REJECTED. None exactly when there is no such movie. |
| MoviesRoute.Mask | src/app/api/movies/route.ts:32-42 | The member's own movie is shown as it is. Another member's movie shows the mystery title and description, with no cover or year. Id, proposer, status and week are kept. |
| MoviesRoute.Queue | src/app/api/movies/route.ts:30-42 | One masked entry per PROPOSED movie. Every entry is a masked PROPOSED row, and every PROPOSED row appears. |
| MoviesRoute.QueueKeepsIds | src/app/api/movies/route.ts:30-42 | Each entry is the masked row of the PROPOSED movie with its id, and every PROPOSED movie has an entry. |
| MoviesRoute.AverageScore | src/app/api/movies/route.ts:53-59 | No score exactly when the movie has no vote rows. Otherwise the count is the movie's vote-row count. |
| MoviesRoute.HistoryIsTheCompletedMovies | src/app/api/movies/route.ts:48-60 | Every history entry is a COMPLETED movie with its score, and every COMPLETED movie has one. |
| MoviesRoute.MoviesGet | src/app/api/movies/route.ts:8-72 | 401 without a session. Otherwise the board: the state, own submission, open-movie count, member count, queue and history. |
| MoviesRoute.MoviesPost | src/app/api/movies/route.ts:74-86 | Performs POST on the database. The reply and tables are exactly `MoviesPostStep`. |
| MoviesRoute.MoviesPostOutsideSubmission | src/app/api/movies/route.ts:80-85 | Outside SUBMISSION, POST answers 400 with submitMovie's message and changes nothing. |
| Actions.NameTaken | src/app/actions.ts:54-55 | True exactly when some member has the name. |
| Actions.CreateUser | src/app/actions.ts:41-66 | Performs createUserAction on the database. The result and tables are exactly `CreateUserStep`. |
| Actions.CreateUserContract | src/app/actions.ts:41-66 | A missing name, a missing PIN or a PIN not 4 characters long is refused. So is a taken name. Neither inserts anything. Otherwise exactly one member with that name and PIN is added and nothing else changes. |
| Actions.CreateUserKeepsNamesUnique | src/app/actions.ts:54-65 | Member names stay unique. |
| Actions.Login | src/app/actions.ts:20-39 | A refusal always has the message "Invalid username or PIN". A sign-in is for a member with that name and PIN. |
| Actions.LoginAcceptsExactlyTheMembers | src/app/actions.ts:28-32 | With unique names, sign-in succeeds exactly when some member has that name and PIN, and it signs in that member. |
| PushSubscribe.Subscribe | src/app/api/push/subscribe/route.ts:15-50 | Performs POST on the database. The reply and tables are exactly `SubscribeStep`. |
| PushSubscribe.SubscribeContract | src/app/api/push/subscribe/route.ts:15-50 | 401 or 400 change nothing. An existing row for the member and endpoint gets the new keys. Otherwise one row is appended. No other row changes. |
| PushSubscribe.SubscribeKeepsOnePerEndpoint | src/app/api/push/subscribe/route.ts:26-47 | There is at most one row per member and endpoint. |
| PushSubscribe.Unsubscribe | src/app/api/push/subscribe/route.ts:53-70 | Performs DELETE on the database. The reply and tables are exactly `UnsubscribeStep`. |
| PushSubscribe.UnsubscribeContract | src/app/api/push/subscribe/route.ts:53-70 | 401 or 400 change nothing. Otherwise every row of the member for the endpoint is removed, every other row is kept, and as many rows remain as there were other rows. |
| PushReminders.IsAuthorized | src/app/api/cron/push-reminders/route.ts:8-19 | Authorized exactly when no secret is set, the header is `Bearer <secret>`, or the query parameter is the secret. |
| PushReminders.BearerPrefixIsRequired | src/app/api/cron/push-reminders/route.ts:12-16 | With a secret set, a header with the bare secret is refused, and so is a query parameter in the header's form. |
| PushReminders.VettingNotices | src/app/api/cron/push-reminders/route.ts:33-43 | One vetting reminder to the pending members, exactly when there is a vetting movie and a pending member. |
| PushReminders.VettingReminderCount | src/app/api/cron/push-reminders/route.ts:33-43 | The number of pending members when the reminder goes out, else 0. |
| PushReminders.VotersHaveVoteRows | src/app/api/cron/push-reminders/route.ts:68-69 | A member is a voter exactly when one of the movie's vote rows is theirs. |
| PushReminders.PendingVotersAreTheOthers | src/app/api/cron/push-reminders/route.ts:67-70 | The pending members are exactly the members who are not voters. |
| PushReminders.CronGet | src/app/api/cron/push-reminders/route.ts:21-81 | Unauthorized: 401 and nothing sent. Otherwise the vetting reminder, then, in list order, one vote reminder per due movie that has a member without a vote, with counts that the loop invariants tie to `VoteReminderTotal`. |
| PushReminders.NoticesAreForDueMovies | src/app/api/cron/push-reminders/route.ts:52-79 | Every vote reminder is about a listed movie whose vetting is complete and not less than two days old. It goes to exactly that movie's members without a vote, and there is at least one. |
| PushReminders.DueMoviesAreReminded | src/app/api/cron/push-reminders/route.ts:52-79 | Every listed movie whose vetting is complete, whose start date is missing, 0 or at least two days old, and that has a member without a vote gets a vote reminder to exactly those members. |
| PushReminders.TotalCountsRecipients | src/app/api/cron/push-reminders/route.ts:72-78 | `voteReminders` is the number of members the vote reminders reach. |
| PushReminders.TotalIsBounded | src/app/api/cron/push-reminders/route.ts:52-79 | `voteReminders` is at most the number of members times the number of movies. |

## Left out

- The user interface, the service worker and actual push delivery:
  `notifyPendingVetting` and `notifyPendingVotes` are modelled only as the
  reminders they would be sent.
- Session cookies, JWT signing and middleware. The session is a parameter.
  This also leaves out loginAction's session start and redirect.
- The movie search (TMDB), the maintenance scripts, the seed, the other API
  routes (`auth/login`, `users`, `push/test`, `cron/weekly-transition`) and
  the logout and search actions. None is part of the core lifecycle.
- GET of the push-subscribe route. It only returns the VAPID public key from
  the environment.
- Concurrency: each handler runs to completion before the next starts. The
  race window between a handler's reads and writes is not modelled.
- Row order: a query without `ORDER BY` is read in table order, so the row
  `.get()` and `limit(1)` return is the first match in insertion order.
- Generated values: uuids (ids are table positions) and `createdAt` timestamps.
- The request bodies. The movies POST `title` and `coverUrl` are options,
  where None is a missing field. The other text fields (name, PIN, endpoint,
  keys) are strings, and a missing one is the empty string. The code refuses
  both alike, because both are falsy. A missing `score` or `seen`, JSON `null`
  and values of the wrong JSON type are not modelled.
- StateMachine.SubmitMovie: a re-submission with neither a title nor a cover
  makes drizzle build an UPDATE with nothing to set. Whether that raises an
  error depends on the drizzle version. The model leaves the row as it was.
- Text conversions: `parseInt` of a stored week is an integer (NaN never
  arises because every write stores a number). `pin.length` counts characters,
  not UTF-16 code units.
- MoviesRoute.AverageScore: the average is given as the sum and the count of
  the movie's votes. The floating-point division and `toFixed(1)` rounding are
  not modelled.
- MoviesRoute.ScoreSum: a vote's score is an integer. The `v.score || 0`
  fallback for a NULL score is not modelled.
- PushReminders.CronGet: the 500 reply of the `catch` is not modelled, because
  every modelled step succeeds. The unused `getAppState()` call is left out.
- `getVettingMovie`, `getUsersPendingVetting` and `getWatchingMovies` are
  called by the cron but are not part of this model. Their results are
  parameters of `CronGet`. The cron's `new Date(vettingStart)` on the integer
  column is compared as a millisecond timestamp.
- The library's `AppPhase` type also names VOTING, but no code writes it, so
  `Schema.Phase` has no such value.
