/**
 * The voting endpoint of the route version of the lifecycle
 * (`src/app/api/votes/route.ts`). Every call inserts a vote row for the
 * ACTIVE movie; once the movie has as many vote rows as there are members it
 * is WATCHED, the week advances, and the PROPOSED movie scheduled for the new
 * week (if any) becomes ACTIVE.
 */
module VotesRoute {
  import opened Wrappers
  import opened Queries
  import opened Schema
  import opened Http

  const NoActiveMovie := "No active movie"

  predicate IsVoteFor(v: Vote, m: MovieId) {
    v.movieId == m
  }

  /** The number of vote rows for movie `m`, whatever their comment. */
  function VoteCount(vs: seq<Vote>, m: MovieId): nat {
    Count(vs, v => IsVoteFor(v, m))
  }

  lemma VoteCountAppend(vs: seq<Vote>, m: MovieId, x: Vote)
    ensures VoteCount(vs + [x], m) == VoteCount(vs, m) + (if IsVoteFor(x, m) then 1 else 0)
  {
    CountAppend(vs, x, v => IsVoteFor(v, m));
  }

  predicate IsProposedFor(mv: Movie, w: int) {
    mv.weekNumber == Some(w) && mv.status == Proposed
  }

  /** `select from movies where weekNumber = w and status = 'PROPOSED' limit 1`. */
  function NextMovie(ms: seq<Movie>, w: int): Option<nat> {
    FindFirst(ms, mv => IsProposedFor(mv, w))
  }

  /** The stored week, '1' when the key is absent. */
  function StoredWeek(s: Store): (w: int)
    ensures s.weekRow.None? ==> w == 1
    ensures s.weekRow.Some? ==> w == s.weekRow.value
  {
    s.weekRow.GetOr(1)
  }

  /**
   * The tables once movie `m` has as many vote rows as there are members: it is
   * WATCHED and the stored week advances; the first PROPOSED movie scheduled
   * for the new week becomes ACTIVE with the phase VETTING, and without one the
   * phase is SUBMISSION. Both `app_state` writes are upserts.
   */
  function WatchMovie(s: Store, m: MovieId): Store {
    var watched := SetStatus(s.movies, m, Watched);
    var nextWeek := StoredWeek(s) + 1;
    var weekRow := UpsertKey(s.weekRow, nextWeek);
    match NextMovie(watched, nextWeek)
    case Some(n) =>
      s.(movies := SetStatus(watched, n, Active), weekRow := weekRow, phaseRow := UpsertKey(s.phaseRow, Vetting))
    case None =>
      s.(movies := watched, weekRow := weekRow, phaseRow := UpsertKey(s.phaseRow, Submission))
  }

  /** POST as a function of the tables before it. */
  function VotesPostStep(s: Store, session: Session, score: int): Step<Reply<()>> {
    if session.None? then Step(s, Fail(UnauthorizedStatus, UnauthorizedText))
    else
      match FirstActive(s.movies)
      case None => Step(s, Fail(BadRequestStatus, NoActiveMovie))
      case Some(m) =>
        var voted := s.(votes := s.votes + [Vote(m, session.value, score, NoComment)]);
        if VoteCount(voted.votes, m) >= |s.users| then Step(WatchMovie(voted, m), Ok(()))
        else Step(voted, Ok(()))
  }

  /** The `allVotes >= allUsers` branch of POST. */
  method FinishVoting(db: Database, m: MovieId)
    requires db.Valid()
    modifies db`movies, db`phaseRow, db`weekRow
    ensures db.Valid()
    ensures db.Tables() == WatchMovie(old(db.Tables()), m)
  {
    ghost var before := db.Tables();
    db.movies := SetStatus(db.movies, m, Watched);
    SetStatusKeepsIds(before, m, Watched);
    var weekRaw := db.weekRow;
    var nextWeek := weekRaw.GetOr(1) + 1;
    db.weekRow := UpsertKey(db.weekRow, nextWeek);
    var nextMovie := NextMovie(db.movies, nextWeek);
    if nextMovie.Some? {
      var n := nextMovie.value;
      SetStatusKeepsIds(before.(movies := db.movies), n, Active);
      db.movies := SetStatus(db.movies, n, Active);
      db.phaseRow := UpsertKey(db.phaseRow, Vetting);
    } else {
      db.phaseRow := UpsertKey(db.phaseRow, Submission);
    }
  }

  method VotesPost(db: Database, session: Session, score: int) returns (r: Reply<()>)
    requires db.Valid()
    modifies db`movies, db`votes, db`phaseRow, db`weekRow
    ensures db.Valid()
    ensures Step(db.Tables(), r) == VotesPostStep(old(db.Tables()), session, score)
  {
    if session.None? {
      return Fail(UnauthorizedStatus, UnauthorizedText);
    }
    var activeMovie := FirstActive(db.movies);
    if activeMovie.None? {
      return Fail(BadRequestStatus, NoActiveMovie);
    }
    var m := activeMovie.value;
    db.votes := db.votes + [Vote(m, session.value, score, NoComment)];
    var allUsers := |db.users|;
    var allVotes := VoteCount(db.votes, m);
    if allVotes >= allUsers {
      FinishVoting(db, m);
    }
    r := Ok(());
  }

  // ---------------------------------------------------------------- properties

  /**
   * POST without a session or without an ACTIVE movie fails and changes
   * nothing. Otherwise it always appends a fresh vote row (there is no upsert),
   * so the movie's vote count grows by one; below the member count nothing
   * else changes.
   */
  lemma VotesPostContract(s: Store, session: Session, score: int)
    ensures var st := VotesPostStep(s, session, score);
      session.None? ==> st == Step(s, Fail(UnauthorizedStatus, UnauthorizedText))
    ensures var st := VotesPostStep(s, session, score);
      session.Some? && FirstActive(s.movies).None? ==> st == Step(s, Fail(BadRequestStatus, NoActiveMovie))
    ensures var st := VotesPostStep(s, session, score);
      session.Some? && FirstActive(s.movies).Some? ==>
        var m := FirstActive(s.movies).value;
        && st.result == Ok(())
        && |st.after.votes| == |s.votes| + 1 && st.after.votes[..|s.votes|] == s.votes
        && st.after.votes[|s.votes|] == Vote(m, session.value, score, NoComment)
        && VoteCount(st.after.votes, m) == VoteCount(s.votes, m) + 1
        && st.after == s.(votes := st.after.votes, movies := st.after.movies,
                          phaseRow := st.after.phaseRow, weekRow := st.after.weekRow)
        && (VoteCount(s.votes, m) + 1 < |s.users| ==> st.after == s.(votes := st.after.votes))
  {
    if session.Some? && FirstActive(s.movies).Some? {
      var m := FirstActive(s.movies).value;
      VoteCountAppend(s.votes, m, Vote(m, session.value, score, NoComment));
    }
  }

  /** A vote that reaches the member count ends in WatchMovie, where the lookup of the next movie sees the old table. */
  lemma QuorumStep(s: Store, session: Session, score: int)
    requires session.Some? && FirstActive(s.movies).Some?
    requires VoteCount(s.votes, FirstActive(s.movies).value) + 1 >= |s.users|
    ensures var m := FirstActive(s.movies).value;
      var voted := s.(votes := s.votes + [Vote(m, session.value, score, NoComment)]);
      && VotesPostStep(s, session, score) == Step(WatchMovie(voted, m), Ok(()))
      && NextMovie(SetStatus(s.movies, m, Watched), StoredWeek(s) + 1) == NextMovie(s.movies, StoredWeek(s) + 1)
  {
    var m := FirstActive(s.movies).value;
    VoteCountAppend(s.votes, m, Vote(m, session.value, score, NoComment));
    SameUpTo(s.movies, SetStatus(s.movies, m, Watched), m, StoredWeek(s) + 1);
  }

  /**
   * At the member count the movie is WATCHED and the stored week becomes the
   * old one plus one (a missing week counting as 1).
   */
  lemma VotesPostAtQuorum(s: Store, session: Session, score: int)
    requires session.Some? && FirstActive(s.movies).Some?
    requires VoteCount(s.votes, FirstActive(s.movies).value) + 1 >= |s.users|
    ensures var a := VotesPostStep(s, session, score).after;
      var m := FirstActive(s.movies).value;
      && |a.movies| == |s.movies|
      && a.movies[m] == s.movies[m].(status := Watched)
      && a.weekRow == Some(StoredWeek(s) + 1)
  {
    QuorumStep(s, session, score);
  }

  /**
   * At the member count, when a PROPOSED movie is scheduled for the new week,
   * the first one becomes ACTIVE and the phase VETTING; no other movie changes.
   */
  lemma VotesPostActivatesNextMovie(s: Store, session: Session, score: int)
    requires session.Some? && FirstActive(s.movies).Some?
    requires VoteCount(s.votes, FirstActive(s.movies).value) + 1 >= |s.users|
    requires NextMovie(s.movies, StoredWeek(s) + 1).Some?
    ensures var a := VotesPostStep(s, session, score).after;
      var m := FirstActive(s.movies).value;
      var n := NextMovie(s.movies, StoredWeek(s) + 1).value;
      && n != m && |a.movies| == |s.movies| && a.movies[n] == s.movies[n].(status := Active)
      && (forall j :: 0 <= j < |s.movies| && j != m && j != n ==> a.movies[j] == s.movies[j])
      && a.phaseRow == Some(Vetting)
  {
    QuorumStep(s, session, score);
  }

  /**
   * At the member count, when no PROPOSED movie is scheduled for the new week,
   * the phase is SUBMISSION, the advanced week stays, and only the watched
   * movie changes.
   */
  lemma VotesPostEndsTheSchedule(s: Store, session: Session, score: int)
    requires session.Some? && FirstActive(s.movies).Some?
    requires VoteCount(s.votes, FirstActive(s.movies).value) + 1 >= |s.users|
    requires NextMovie(s.movies, StoredWeek(s) + 1).None?
    ensures var a := VotesPostStep(s, session, score).after;
      var m := FirstActive(s.movies).value;
      && |a.movies| == |s.movies|
      && (forall j :: 0 <= j < |s.movies| && j != m ==> a.movies[j] == s.movies[j])
      && a.phaseRow == Some(Submission)
  {
    QuorumStep(s, session, score);
  }

  /** Changing the ACTIVE movie `m` to WATCHED does not change which PROPOSED movie comes next. */
  lemma {:induction false} SameUpTo(ms: seq<Movie>, watched: seq<Movie>, m: nat, w: int)
    requires m < |ms| && ms[m].status == Active && watched == ms[m := ms[m].(status := Watched)]
    ensures NextMovie(watched, w) == NextMovie(ms, w)
  {
    forall i | 0 <= i < |ms| ensures IsProposedFor(watched[i], w) == IsProposedFor(ms[i], w) {
    }
    var a, b := NextMovie(watched, w), NextMovie(ms, w);
    if a.Some? && b.Some? {
      assert !(a.value < b.value) && !(b.value < a.value);
    }
  }

  /**
   * Repeated votes by one member all count: below the member count, voting
   * twice leaves two more vote rows for the movie.
   */
  lemma RepeatedVotesCount(s: Store, session: Session, first: int, second: int)
    requires session.Some? && FirstActive(s.movies).Some?
    requires VoteCount(s.votes, FirstActive(s.movies).value) + 1 < |s.users|
    ensures var once := VotesPostStep(s, session, first).after;
      var twice := VotesPostStep(once, session, second).after;
      var m := FirstActive(s.movies).value;
      FirstActive(once.movies) == FirstActive(s.movies) &&
      |twice.votes| == |s.votes| + 2 &&
      VoteCount(twice.votes, m) == VoteCount(s.votes, m) + 2
  {
    VotesPostContract(s, session, first);
    var once := VotesPostStep(s, session, first).after;
    VotesPostContract(once, session, second);
  }
}
