/**
 * The movie club's relational store: members, movies, vote rows, vetting
 * responses, push subscriptions and the two-key `app_state` table.
 *
 * Primary keys of `users` and `movies` are random UUIDs in the system; here a
 * row's id is its position in its table (no handler deletes users or movies), and
 * `WellFormed` says that every row carries its own position as its id. Rows of
 * `votes`, `vetting_responses` and `push_subscriptions` are never looked up by id
 * from outside, so they carry none; an update "where id = existing.id" becomes an
 * update at the position where the row was found.
 */
module Schema {
  import opened Wrappers

  type UserId = nat
  type MovieId = nat

  /**
   * Every movie status string either version of the lifecycle writes: the
   * library uses PROPOSED / QUEUED / REJECTED / COMPLETED, the route handlers
   * PROPOSED / ACTIVE / REJECTED / WATCHED.
   */
  datatype Status = Proposed | Queued | Active | Rejected | Completed | Watched

  /** The values of the `current_phase` key (`AppPhase` also names VOTING, which nothing writes). */
  datatype Phase = Submission | Vetting | Watching

  /** The `comment` column of a vote row: absent, 'RATING', or the library's 'VETTING_NOT_SEEN' tag. */
  datatype Comment = NoComment | Rating | VettingNotSeen

  /** The `response` column of a vetting response row. */
  datatype Response = Seen | NotSeen

  datatype User = User(id: UserId, name: string, pin: string)

  datatype Movie = Movie(
    id: MovieId,
    title: string,
    description: Option<string>,
    year: Option<int>,
    coverUrl: Option<string>,
    proposedBy: Option<UserId>,
    status: Status,
    weekNumber: Option<int>,
    vettingStartDate: Option<int>)

  datatype Vote = Vote(movieId: MovieId, userId: UserId, score: int, comment: Comment)

  datatype VettingResponse = VettingResponse(movieId: MovieId, userId: UserId, response: Response)

  datatype Subscription = Subscription(userId: UserId, endpoint: string, p256dh: string, auth: string)

  /**
   * The contents of every table. `phaseRow` and `weekRow` are the `app_state`
   * rows with keys 'current_phase' and 'current_week' (None: no such row).
   */
  datatype Store = Store(
    users: seq<User>,
    movies: seq<Movie>,
    votes: seq<Vote>,
    responses: seq<VettingResponse>,
    subscriptions: seq<Subscription>,
    phaseRow: Option<Phase>,
    weekRow: Option<int>)

  /** The state after a handler ran, with what it returned. */
  datatype Step<R> = Step(after: Store, result: R)

  const EmptyStore := Store([], [], [], [], [], None, None)

  predicate WellFormed(s: Store) {
    && (forall i :: 0 <= i < |s.users| ==> s.users[i].id == i)
    && (forall i :: 0 <= i < |s.movies| ==> s.movies[i].id == i)
  }

  /** SQL `update app_state set value = v where key = k`: no row, no effect. */
  function UpdateKey<T>(row: Option<T>, v: T): Option<T> {
    if row.Some? then Some(v) else None
  }

  /** `insert into app_state ... on conflict do update`: the row holds `v` afterwards. */
  function UpsertKey<T>(row: Option<T>, v: T): Option<T> {
    Some(v)
  }

  /** `update movies set status = st where id = m`. */
  function SetStatus(ms: seq<Movie>, m: MovieId, st: Status): seq<Movie> {
    if m < |ms| then ms[m := ms[m].(status := st)] else ms
  }

  /** Changing a movie's status, or any table but `users` and `movies`, keeps every id at its position. */
  lemma SetStatusKeepsIds(s: Store, m: MovieId, st: Status)
    requires WellFormed(s)
    ensures WellFormed(s.(movies := SetStatus(s.movies, m, st)))
  {
  }

  /** The database the handlers share; each handler updates its tables in place. */
  class Database {
    var users: seq<User>
    var movies: seq<Movie>
    var votes: seq<Vote>
    var responses: seq<VettingResponse>
    var subscriptions: seq<Subscription>
    var phaseRow: Option<Phase>
    var weekRow: Option<int>

    function Tables(): Store
      reads this
    {
      Store(users, movies, votes, responses, subscriptions, phaseRow, weekRow)
    }

    ghost predicate Valid()
      reads this
    {
      WellFormed(Tables())
    }

    constructor ()
      ensures Valid() && Tables() == EmptyStore
    {
      users, movies, votes, responses, subscriptions := [], [], [], [], [];
      phaseRow, weekRow := None, None;
    }
  }
}
