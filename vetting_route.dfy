/**
 * The vetting endpoint of the route version of the lifecycle
 * (`src/app/api/vetting/route.ts`): GET reports the ACTIVE movie and how far
 * its vetting has got, POST records a member's answer. "Not seen" answers are
 * rows of `vetting_responses`, at most one per member and movie.
 */
module VettingRoute {
  import opened Wrappers
  import opened Queries
  import opened Schema
  import opened Http

  datatype Progress = Progress(responded: nat, total: nat)

  /** The GET body: `{ movie, hasVetted, vettingProgress }`. */
  datatype VettingStatus = VettingStatus(movie: Option<Movie>, hasVetted: bool, vettingProgress: Option<Progress>)

  const NoActiveMovie := "No active movie"

  predicate IsResponseTo(r: VettingResponse, m: MovieId) {
    r.movieId == m
  }

  predicate IsResponseBy(r: VettingResponse, m: MovieId, u: UserId) {
    r.movieId == m && r.userId == u
  }

  /** The number of response rows for movie `m`. */
  function ResponseCount(rs: seq<VettingResponse>, m: MovieId): nat {
    Count(rs, r => IsResponseTo(r, m))
  }

  /** Whether member `u` has a response row for movie `m`. */
  function HasResponded(rs: seq<VettingResponse>, m: MovieId, u: UserId): (b: bool)
    ensures b <==> exists i :: 0 <= i < |rs| && rs[i].movieId == m && rs[i].userId == u
  {
    FindFirst(rs, r => IsResponseBy(r, m, u)).Some?
  }

  /**
   * GET: no session gives 401; with no ACTIVE movie the body is empty; otherwise
   * it carries the movie, whether this member has a response row for it, and
   * how many response rows it has against the number of members.
   */
  function VettingGet(s: Store, session: Session): (r: Reply<VettingStatus>)
    ensures session.None? ==> r == Fail(UnauthorizedStatus, UnauthorizedText)
    ensures session.Some? && FirstActive(s.movies).None? ==> r == Ok(VettingStatus(None, false, None))
    ensures session.Some? && FirstActive(s.movies).Some? ==>
      var m := FirstActive(s.movies).value;
      && r.Ok? && r.body.movie == Some(s.movies[m]) && s.movies[m].status == Active
      && (r.body.hasVetted <==>
            exists i :: 0 <= i < |s.responses| && s.responses[i].movieId == m && s.responses[i].userId == session.value)
      && r.body.vettingProgress == Some(Progress(ResponseCount(s.responses, m), |s.users|))
  {
    if session.None? then Fail(UnauthorizedStatus, UnauthorizedText)
    else
      match FirstActive(s.movies)
      case None => Ok(VettingStatus(None, false, None))
      case Some(m) =>
        Ok(VettingStatus(Some(s.movies[m]), HasResponded(s.responses, m, session.value),
                         Some(Progress(ResponseCount(s.responses, m), |s.users|))))
  }

  /** The response rows after a "not seen" answer: one is added only if the member has none. */
  function RecordNotSeen(rs: seq<VettingResponse>, m: MovieId, u: UserId): seq<VettingResponse> {
    if HasResponded(rs, m, u) then rs else rs + [VettingResponse(m, u, NotSeen)]
  }

  /** POST as a function of the tables before it. */
  function VettingPostStep(s: Store, session: Session, seen: bool): Step<Reply<()>> {
    if session.None? then Step(s, Fail(UnauthorizedStatus, UnauthorizedText))
    else
      match FirstActive(s.movies)
      case None => Step(s, Fail(BadRequestStatus, NoActiveMovie))
      case Some(m) =>
        if seen then
          Step(s.(movies := SetStatus(s.movies, m, Rejected), phaseRow := UpsertKey(s.phaseRow, Submission)), Ok(()))
        else
          var responses := RecordNotSeen(s.responses, m, session.value);
          var phaseRow := if ResponseCount(responses, m) >= |s.users| then UpsertKey(s.phaseRow, Watching) else s.phaseRow;
          Step(s.(responses := responses, phaseRow := phaseRow), Ok(()))
  }

  method VettingPost(db: Database, session: Session, seen: bool) returns (r: Reply<()>)
    requires db.Valid()
    modifies db`movies, db`responses, db`phaseRow
    ensures db.Valid()
    ensures Step(db.Tables(), r) == VettingPostStep(old(db.Tables()), session, seen)
  {
    if session.None? {
      return Fail(UnauthorizedStatus, UnauthorizedText);
    }
    var activeMovie := FirstActive(db.movies);
    if activeMovie.None? {
      return Fail(BadRequestStatus, NoActiveMovie);
    }
    var movieId := activeMovie.value;
    var userId := session.value;
    if seen {
      db.movies := db.movies[movieId := db.movies[movieId].(status := Rejected)];
      db.phaseRow := UpsertKey(db.phaseRow, Submission);
    } else {
      var check := HasResponded(db.responses, movieId, userId);
      if !check {
        db.responses := db.responses + [VettingResponse(movieId, userId, NotSeen)];
      }
      var allUsers := |db.users|;
      var allResponses := ResponseCount(db.responses, movieId);
      if allResponses >= allUsers {
        db.phaseRow := UpsertKey(db.phaseRow, Watching);
      }
    }
    r := Ok(());
  }

  // ---------------------------------------------------------------- properties

  /** At most one response row per (movie, member). */
  ghost predicate OneResponsePerMember(rs: seq<VettingResponse>) {
    forall i, j :: 0 <= i < j < |rs| ==> rs[i].movieId != rs[j].movieId || rs[i].userId != rs[j].userId
  }

  lemma ResponseCountAppend(rs: seq<VettingResponse>, m: MovieId, x: VettingResponse)
    ensures ResponseCount(rs + [x], m) == ResponseCount(rs, m) + (if IsResponseTo(x, m) then 1 else 0)
  {
    CountAppend(rs, x, r => IsResponseTo(r, m));
  }

  /**
   * POST without a session, or without an ACTIVE movie, fails and changes
   * nothing. `seen` rejects the movie and sets the phase to SUBMISSION, leaving
   * the response rows alone. Not seen leaves the member with exactly one more
   * response row when they had none (none more otherwise), never touches a
   * movie's status, and sets WATCHING once the rows reach the member count.
   */
  lemma VettingPostContract(s: Store, session: Session, seen: bool)
    ensures var st := VettingPostStep(s, session, seen);
      session.None? ==> st == Step(s, Fail(UnauthorizedStatus, UnauthorizedText))
    ensures var st := VettingPostStep(s, session, seen);
      session.Some? && FirstActive(s.movies).None? ==> st == Step(s, Fail(BadRequestStatus, NoActiveMovie))
    ensures var st := VettingPostStep(s, session, seen);
      session.Some? && FirstActive(s.movies).Some? && seen ==>
        var m := FirstActive(s.movies).value;
        && st.result == Ok(())
        && |st.after.movies| == |s.movies| && st.after.movies[m] == s.movies[m].(status := Rejected)
        && (forall j :: 0 <= j < |s.movies| && j != m ==> st.after.movies[j] == s.movies[j])
        && st.after.phaseRow == Some(Submission)
        && st.after == s.(movies := st.after.movies, phaseRow := st.after.phaseRow)
    ensures var st := VettingPostStep(s, session, seen);
      session.Some? && FirstActive(s.movies).Some? && !seen ==>
        var m := FirstActive(s.movies).value;
        var u := session.value;
        && st.result == Ok(())
        && st.after.movies == s.movies
        && HasResponded(st.after.responses, m, u)
        && (HasResponded(s.responses, m, u) ==> st.after.responses == s.responses)
        && (!HasResponded(s.responses, m, u) ==>
              st.after.responses == s.responses + [VettingResponse(m, u, NotSeen)] &&
              ResponseCount(st.after.responses, m) == ResponseCount(s.responses, m) + 1)
        && (ResponseCount(st.after.responses, m) >= |s.users| ==> st.after.phaseRow == Some(Watching))
        && (ResponseCount(st.after.responses, m) < |s.users| ==> st.after.phaseRow == s.phaseRow)
        && st.after == s.(responses := st.after.responses, phaseRow := st.after.phaseRow)
  {
    if session.Some? && FirstActive(s.movies).Some? && !seen {
      var m := FirstActive(s.movies).value;
      var u := session.value;
      if !HasResponded(s.responses, m, u) {
        var row := VettingResponse(m, u, NotSeen);
        ResponseCountAppend(s.responses, m, row);
        assert (s.responses + [row])[|s.responses|] == row;
      }
    }
  }

  /** Answering "not seen" twice has the same effect as answering once. */
  lemma NotSeenIsIdempotent(s: Store, session: Session)
    ensures var once := VettingPostStep(s, session, false);
      VettingPostStep(once.after, session, false) == once
  {
    var once := VettingPostStep(s, session, false);
    if session.Some? && FirstActive(s.movies).Some? {
      VettingPostContract(s, session, false);
      VettingPostContract(once.after, session, false);
    }
  }

  /** POST never gives a member a second response row for one movie. */
  lemma VettingPostKeepsOneResponsePerMember(s: Store, session: Session, seen: bool)
    requires OneResponsePerMember(s.responses)
    ensures OneResponsePerMember(VettingPostStep(s, session, seen).after.responses)
  {
  }
}
