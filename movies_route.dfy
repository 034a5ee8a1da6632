/**
 * The movies endpoint (`src/app/api/movies/route.ts`): GET builds the board a
 * member sees (state, their own submission, the masked queue, counts and the
 * scored history); POST hands a submission to the library's submitMovie.
 */
module MoviesRoute {
  import opened Wrappers
  import opened Queries
  import opened Schema
  import opened Http
  import StateMachine
  import StateMachineProperties
  import VotesRoute

  const MysteryTitle := "Mystery Movie"
  const MysteryDescription := "???"

  datatype BoardState = BoardState(phase: Phase, week: int)
  datatype Stats = Stats(submitted: nat, totalUsers: nat)

  /**
   * A movie's votes as a sum and a count; the board shows `total / count` to
   * one decimal place. `count` is never 0: a movie without votes has no score.
   */
  datatype ScoreTotal = ScoreTotal(total: int, count: nat)

  datatype HistoryEntry = HistoryEntry(movie: Movie, averageScore: Option<ScoreTotal>)

  datatype Board = Board(
    state: BoardState,
    mySubmission: Option<Movie>,
    stats: Stats,
    queue: seq<Movie>,
    history: seq<HistoryEntry>)

  /** The shown state: SUBMISSION and week 1 stand in for missing keys. */
  function ShownState(s: Store): (st: BoardState)
    ensures s.phaseRow.None? ==> st.phase == Submission
    ensures s.phaseRow.Some? ==> st.phase == s.phaseRow.value
    ensures s.weekRow.None? ==> st.week == 1
    ensures s.weekRow.Some? ==> st.week == s.weekRow.value
  {
    BoardState(s.phaseRow.GetOr(Submission), s.weekRow.GetOr(1))
  }

  /** Neither COMPLETED nor REJECTED. */
  predicate IsOpen(m: Movie) {
    m.status != Completed && m.status != Rejected
  }

  predicate IsOpenProposalOf(m: Movie, u: UserId) {
    m.proposedBy == Some(u) && IsOpen(m)
  }

  /** `mySubmission`: a movie the member proposed that is neither COMPLETED nor REJECTED, or none. */
  function MySubmission(ms: seq<Movie>, u: UserId): (r: Option<Movie>)
    ensures r.Some? ==> r.value in ms && r.value.proposedBy == Some(u) && IsOpen(r.value)
    ensures r.None? <==> forall i :: 0 <= i < |ms| ==> !IsOpenProposalOf(ms[i], u)
  {
    match FindFirst(ms, m => IsOpenProposalOf(m, u))
    case Some(i) => Some(ms[i])
    case None => None
  }

  /** A queue entry as member `u` sees it: other members' movies are hidden. */
  function Mask(m: Movie, u: UserId): (e: Movie)
    ensures m.proposedBy == Some(u) ==> e == m
    ensures m.proposedBy != Some(u) ==>
      e.title == MysteryTitle && e.description == Some(MysteryDescription) && e.coverUrl.None? && e.year.None?
    ensures e.id == m.id && e.proposedBy == m.proposedBy && e.status == m.status
    ensures e.weekNumber == m.weekNumber && e.vettingStartDate == m.vettingStartDate
  {
    if m.proposedBy == Some(u) then m
    else m.(title := MysteryTitle, description := Some(MysteryDescription), coverUrl := None, year := None)
  }

  /** The PROPOSED movies in table order, each masked for member `u`. */
  function Queue(ms: seq<Movie>, u: UserId): (q: seq<Movie>)
    ensures |q| == Count(ms, StateMachine.IsProposed)
    ensures forall k :: 0 <= k < |q| ==>
      exists i :: 0 <= i < |ms| && StateMachine.IsProposed(ms[i]) && q[k] == Mask(ms[i], u)
    ensures forall i :: 0 <= i < |ms| && StateMachine.IsProposed(ms[i]) ==> Mask(ms[i], u) in q
  {
    var rawQueue := Filter(ms, StateMachine.IsProposed);
    var q := seq(|rawQueue|, k requires 0 <= k < |rawQueue| => Mask(rawQueue[k], u));
    assert forall k :: 0 <= k < |q| ==> rawQueue[k] in rawQueue && q[k] == Mask(rawQueue[k], u);
    assert forall i :: 0 <= i < |ms| && StateMachine.IsProposed(ms[i]) ==> ms[i] in rawQueue;
    q
  }

  /** The vote rows for movie `m`, whatever their comment. */
  function VotesFor(vs: seq<Vote>, m: MovieId): seq<Vote> {
    Filter(vs, v => VotesRoute.IsVoteFor(v, m))
  }

  /** The sum over `reduce((sum, v) => sum + score, 0)`. */
  function ScoreSum(vs: seq<Vote>): int {
    if vs == [] then 0 else ScoreSum(vs[..|vs| - 1]) + vs[|vs| - 1].score
  }

  /** A movie's score: none without votes, otherwise the sum and the number of its votes. */
  function AverageScore(vs: seq<Vote>, m: MovieId): (a: Option<ScoreTotal>)
    ensures a.None? <==> forall j :: 0 <= j < |vs| ==> vs[j].movieId != m
    ensures a.Some? ==> a.value.count > 0 && a.value.count == VotesRoute.VoteCount(vs, m)
  {
    var movieVotes := VotesFor(vs, m);
    if |movieVotes| == 0 then None
    else Some(ScoreTotal(ScoreSum(movieVotes), |movieVotes|))
  }

  predicate IsCompleted(m: Movie) {
    m.status == Completed
  }

  /** The COMPLETED movies in table order, each with its score. */
  function History(ms: seq<Movie>, vs: seq<Vote>): (h: seq<HistoryEntry>)
    ensures |h| == Count(ms, IsCompleted)
  {
    var done := Filter(ms, IsCompleted);
    seq(|done|, k requires 0 <= k < |done| => HistoryEntry(done[k], AverageScore(vs, done[k].id)))
  }

  /** Every history entry is a COMPLETED movie with its score, and every COMPLETED movie has one. */
  lemma HistoryIsTheCompletedMovies(ms: seq<Movie>, vs: seq<Vote>)
    ensures forall k :: 0 <= k < |History(ms, vs)| ==>
      var e := History(ms, vs)[k];
      e.movie in ms && IsCompleted(e.movie) && e.averageScore == AverageScore(vs, e.movie.id)
    ensures forall i :: 0 <= i < |ms| && IsCompleted(ms[i]) ==> HistoryEntry(ms[i], AverageScore(vs, ms[i].id)) in History(ms, vs)
  {
    var done := Filter(ms, IsCompleted);
    var h := History(ms, vs);
    assert |h| == |done|;
    forall k | 0 <= k < |h| ensures h[k].movie == done[k] && done[k] in done && h[k].averageScore == AverageScore(vs, done[k].id) {
    }
    forall i | 0 <= i < |ms| && IsCompleted(ms[i]) ensures HistoryEntry(ms[i], AverageScore(vs, ms[i].id)) in h {
      assert ms[i] in done;
      var k :| 0 <= k < |done| && done[k] == ms[i];
      assert h[k] == HistoryEntry(ms[i], AverageScore(vs, ms[i].id));
    }
  }

  /** GET: 401 without a session, otherwise the member's board. */
  function MoviesGet(s: Store, session: Session): (r: Reply<Board>)
    ensures session.None? ==> r == Fail(UnauthorizedStatus, UnauthorizedText)
    ensures session.Some? ==> r.Ok?
    ensures session.Some? ==> r.body.state == ShownState(s)
    ensures session.Some? ==> r.body.mySubmission == MySubmission(s.movies, session.value)
    ensures session.Some? ==> r.body.stats.submitted == Count(s.movies, IsOpen) && r.body.stats.totalUsers == |s.users|
    ensures session.Some? ==> r.body.queue == Queue(s.movies, session.value)
    ensures session.Some? ==> r.body.history == History(s.movies, s.votes)
  {
    if session.None? then Fail(UnauthorizedStatus, UnauthorizedText)
    else
      var u := session.value;
      Ok(Board(ShownState(s), MySubmission(s.movies, u), Stats(Count(s.movies, IsOpen), |s.users|),
               Queue(s.movies, u), History(s.movies, s.votes)))
  }

  /** Every queue entry is the masked row of the PROPOSED movie its id names. */
  lemma QueueEntryKeepsId(ms: seq<Movie>, u: UserId, k: nat)
    requires forall i :: 0 <= i < |ms| ==> ms[i].id == i
    requires k < |Queue(ms, u)|
    ensures var e := Queue(ms, u)[k]; e.id < |ms| && StateMachine.IsProposed(ms[e.id]) && e == Mask(ms[e.id], u)
  {
    var q := Queue(ms, u);
    var i :| 0 <= i < |ms| && StateMachine.IsProposed(ms[i]) && q[k] == Mask(ms[i], u);
    assert q[k].id == i;
  }

  /** Every PROPOSED movie appears in the queue under its own id. */
  lemma ProposalInQueue(ms: seq<Movie>, u: UserId, i: nat) returns (k: nat)
    requires forall j :: 0 <= j < |ms| ==> ms[j].id == j
    requires i < |ms| && StateMachine.IsProposed(ms[i])
    ensures k < |Queue(ms, u)| && Queue(ms, u)[k].id == i
  {
    var q := Queue(ms, u);
    assert Mask(ms[i], u) in q;
    k :| 0 <= k < |q| && q[k] == Mask(ms[i], u);
  }

  /**
   * The queue keeps the ids of exactly the PROPOSED movies: every entry is the
   * masked row of the PROPOSED movie with its id, and every PROPOSED movie has
   * an entry.
   */
  lemma QueueKeepsIds(s: Store, u: UserId)
    requires WellFormed(s)
    ensures var q := Queue(s.movies, u);
      && (forall k :: 0 <= k < |q| ==>
            q[k].id < |s.movies| && StateMachine.IsProposed(s.movies[q[k].id]) && q[k] == Mask(s.movies[q[k].id], u))
      && (forall i :: 0 <= i < |s.movies| && StateMachine.IsProposed(s.movies[i]) ==> exists k :: 0 <= k < |q| && q[k].id == i)
  {
    var ms := s.movies;
    var q := Queue(ms, u);
    forall k | 0 <= k < |q|
      ensures q[k].id < |ms| && StateMachine.IsProposed(ms[q[k].id]) && q[k] == Mask(ms[q[k].id], u)
    {
      QueueEntryKeepsId(ms, u, k);
    }
    forall i | 0 <= i < |ms| && StateMachine.IsProposed(ms[i]) ensures exists k :: 0 <= k < |q| && q[k].id == i {
      var k := ProposalInQueue(ms, u, i);
    }
  }

  /** POST as a function of the tables before it: submitMovie's error becomes a 400 with its message. */
  function MoviesPostStep(s: Store, session: Session, title: Option<string>, coverUrl: Option<string>, entropy: seq<nat>): Step<Reply<()>> {
    if session.None? then Step(s, Fail(UnauthorizedStatus, UnauthorizedText))
    else
      var st := StateMachine.SubmitMovieStep(s, session.value, title, coverUrl, entropy);
      match st.result
      case Done => Step(st.after, Ok(()))
      case Thrown(message) => Step(st.after, Fail(BadRequestStatus, message))
  }

  method MoviesPost(db: Database, session: Session, title: Option<string>, coverUrl: Option<string>, entropy: seq<nat>)
    returns (r: Reply<()>)
    requires db.Valid()
    modifies db`movies, db`phaseRow, db`weekRow
    ensures db.Valid()
    ensures Step(db.Tables(), r) == MoviesPostStep(old(db.Tables()), session, title, coverUrl, entropy)
  {
    if session.None? {
      return Fail(UnauthorizedStatus, UnauthorizedText);
    }
    var outcome := StateMachine.SubmitMovie(db, session.value, title, coverUrl, entropy);
    match outcome
    case Done => r := Ok(());
    case Thrown(message) => r := Fail(BadRequestStatus, message);
  }

  /** Outside SUBMISSION the POST answers 400 with submitMovie's message and changes nothing. */
  lemma MoviesPostOutsideSubmission(s: Store, session: Session, title: Option<string>, coverUrl: Option<string>, entropy: seq<nat>)
    requires session.Some? && StateMachine.GetAppState(s).phase != Submission
    ensures MoviesPostStep(s, session, title, coverUrl, entropy) ==
      Step(s, Fail(BadRequestStatus, StateMachine.NotInSubmissionPhase))
  {
    StateMachineProperties.SubmitMovieContract(s, session.value, title, coverUrl, entropy);
  }
}
