/**
 * The library version of the weekly lifecycle (src/lib/state-machine.ts).
 *
 * Statuses PROPOSED -> QUEUED -> REJECTED | COMPLETED; the phase runs
 * SUBMISSION -> VETTING -> WATCHING -> VETTING ... -> SUBMISSION. "Not seen"
 * acknowledgments are vote rows tagged VETTING_NOT_SEEN. Each handler is given
 * twice: a function from the store before to the store after (the `...Step`
 * functions, about which the lemmas speak) and a method that performs the
 * source's reads and writes on a `Database` in the source's order and is proved
 * to end in the state its function names.
 */
module StateMachine {
  import opened Wrappers
  import opened Queries
  import opened Schema

  datatype AppState = AppState(phase: Phase, week: int)

  /** What a library handler does besides changing the store: return, or throw an Error. */
  datatype Outcome = Done | Thrown(message: string)

  const NotInSubmissionPhase := "Not int submission phase"
  const NoActiveMovie := "No active movie"
  const NotInVotingPhase := "Not in voting Phase"
  /** What SQLite reports for an insert without a title. */
  const TitleNotNull := "NOT NULL constraint failed: movies.title"

  // ---------------------------------------------------------------- getAppState

  /** The phase and week as stored, SUBMISSION and 0 for a missing row. */
  function GetAppState(s: Store): (st: AppState)
    ensures s.phaseRow.None? ==> st.phase == Submission
    ensures s.weekRow.None? ==> st.week == 0
    ensures s.phaseRow.Some? ==> st.phase == s.phaseRow.value
    ensures s.weekRow.Some? ==> st.week == s.weekRow.value
  {
    AppState(s.phaseRow.GetOr(Submission), s.weekRow.GetOr(0))
  }

  // ---------------------------------------------------------------- submitMovie

  predicate IsProposed(m: Movie) {
    m.status == Proposed
  }

  predicate IsProposalOf(m: Movie, u: UserId) {
    m.proposedBy == Some(u) && m.status == Proposed
  }

  /** The user's PROPOSED movie, if any (`existing` in submitMovie). */
  function OwnProposal(ms: seq<Movie>, u: UserId): Option<nat> {
    FindFirst(ms, m => IsProposalOf(m, u))
  }

  /**
   * Whether submitMovie's upsert goes through: an update always does, an
   * insert only with a title, since `movies.title` is NOT NULL.
   */
  predicate CanUpsert(ms: seq<Movie>, u: UserId, title: Option<string>) {
    OwnProposal(ms, u).Some? || title.Some?
  }

  /**
   * The movies table after submitMovie's upsert: the user's PROPOSED row gets the
   * new title and cover where they are given (drizzle leaves a column whose
   * value is `undefined` out of the update), or a new PROPOSED row is appended.
   */
  function Resubmit(ms: seq<Movie>, u: UserId, title: Option<string>, coverUrl: Option<string>): seq<Movie>
    requires CanUpsert(ms, u, title)
  {
    match OwnProposal(ms, u)
    case Some(i) =>
      ms[i := ms[i].(title := title.GetOr(ms[i].title), coverUrl := if coverUrl.Some? then coverUrl else ms[i].coverUrl)]
    case None =>
      ms + [Movie(|ms|, title.value, None, None, coverUrl, Some(u), Proposed, None, None)]
  }

  /** Every member has at most one PROPOSED movie. */
  ghost predicate OneProposalPerMember(ms: seq<Movie>) {
    forall i, j :: 0 <= i < j < |ms| && IsProposed(ms[i]) && IsProposed(ms[j]) && ms[i].proposedBy.Some? ==>
      ms[i].proposedBy != ms[j].proposedBy
  }

  function SubmitMovieStep(s: Store, u: UserId, title: Option<string>, coverUrl: Option<string>, entropy: seq<nat>): Step<Outcome> {
    if GetAppState(s).phase != Submission then Step(s, Thrown(NotInSubmissionPhase))
    else if !CanUpsert(s.movies, u, title) then Step(s, Thrown(TitleNotNull))
    else
      var upserted := s.(movies := Resubmit(s.movies, u, title, coverUrl));
      var userCount := |upserted.users|;
      var submissions := Count(upserted.movies, IsProposed);
      if submissions >= userCount && userCount > 0 then Step(ScheduleStep(upserted, entropy), Done)
      else Step(upserted, Done)
  }

  // ---------------------------------------------------------------- scheduleMovies

  predicate Distinct(xs: seq<MovieId>) {
    forall i, j :: 0 <= i < j < |xs| ==> xs[i] != xs[j]
  }

  /** The PROPOSED movies in table order (`props`). */
  function ProposedIds(ms: seq<Movie>): seq<MovieId> {
    if ms == [] then []
    else ProposedIds(ms[..|ms| - 1]) + (if IsProposed(ms[|ms| - 1]) then [|ms| - 1] else [])
  }

  /** One more movie adds its own index when it is PROPOSED. */
  lemma ProposedIdsNext(ms: seq<Movie>)
    requires ms != []
    ensures ProposedIds(ms) == ProposedIds(ms[..|ms| - 1]) + (if IsProposed(ms[|ms| - 1]) then [|ms| - 1] else [])
  {
  }

  /** Every listed index is that of a PROPOSED movie. */
  lemma {:induction false} ProposedIdsAreProposals(ms: seq<Movie>)
    ensures forall k :: 0 <= k < |ProposedIds(ms)| ==> ProposedIds(ms)[k] < |ms| && IsProposed(ms[ProposedIds(ms)[k]])
  {
    if ms != [] {
      var init := ms[..|ms| - 1];
      ProposedIdsAreProposals(init);
      var prefix := ProposedIds(init);
      ProposedIdsNext(ms);
      forall k | 0 <= k < |prefix| ensures prefix[k] < |ms| - 1 && ms[prefix[k]] == init[prefix[k]] {
      }
    }
  }

  /** Every PROPOSED movie's index is listed. */
  lemma {:induction false} ProposedIdsListEveryProposal(ms: seq<Movie>)
    ensures forall i :: 0 <= i < |ms| && IsProposed(ms[i]) ==> i in ProposedIds(ms)
  {
    if ms != [] {
      var init := ms[..|ms| - 1];
      ProposedIdsListEveryProposal(init);
      ProposedIdsNext(ms);
      assert forall i :: 0 <= i < |init| ==> init[i] == ms[i];
    }
  }

  /** No index is listed twice, and there are as many as there are PROPOSED movies. */
  lemma {:induction false} ProposedIdsAreDistinct(ms: seq<Movie>)
    ensures Distinct(ProposedIds(ms))
    ensures |ProposedIds(ms)| == Count(ms, IsProposed)
  {
    if ms != [] {
      var init := ms[..|ms| - 1];
      ProposedIdsAreDistinct(init);
      ProposedIdsAreProposals(init);
      ProposedIdsNext(ms);
    }
  }

  /** `props` lists each PROPOSED movie once, and nothing else. */
  lemma ProposedIdsAreTheProposals(ms: seq<Movie>)
    ensures forall k :: 0 <= k < |ProposedIds(ms)| ==> ProposedIds(ms)[k] < |ms| && IsProposed(ms[ProposedIds(ms)[k]])
    ensures forall i :: 0 <= i < |ms| && IsProposed(ms[i]) ==> i in ProposedIds(ms)
    ensures Distinct(ProposedIds(ms))
    ensures |ProposedIds(ms)| == Count(ms, IsProposed)
  {
    ProposedIdsAreProposals(ms);
    ProposedIdsListEveryProposal(ms);
    ProposedIdsAreDistinct(ms);
  }

  /**
   * A shuffle of `xs` whose random choices are drawn from `entropy`: each step
   * moves the element at position (next choice mod remaining length) to the
   * front. It stands for `props.sort(() => 0.5 - Math.random())`.
   */
  function Shuffle(xs: seq<MovieId>, entropy: seq<nat>): seq<MovieId>
    decreases |xs|
  {
    if xs == [] then []
    else
      var k := Choice(entropy, |xs|);
      [xs[k]] + Shuffle(xs[..k] + xs[k + 1..], Later(entropy))
  }

  /** The next random choice, reduced to a position among `n` remaining elements. */
  function Choice(entropy: seq<nat>, n: nat): (k: nat)
    requires n > 0
    ensures k < n
    ensures entropy != [] && entropy[0] < n ==> k == entropy[0]
  {
    (if entropy == [] then 0 else entropy[0]) % n
  }

  /** The random choices left after one is used. */
  function Later(entropy: seq<nat>): seq<nat> {
    if entropy == [] then [] else entropy[1..]
  }

  /** Taking out the element at position `k`. */
  lemma RemoveAt(xs: seq<MovieId>, k: nat)
    requires k < |xs|
    ensures multiset(xs) == multiset(xs[..k] + xs[k + 1..]) + multiset{xs[k]}
    ensures Distinct(xs) ==> Distinct(xs[..k] + xs[k + 1..]) && xs[k] !in xs[..k] + xs[k + 1..]
  {
    var rest := xs[..k] + xs[k + 1..];
    assert xs == xs[..k] + [xs[k]] + xs[k + 1..];
    if Distinct(xs) {
      forall i | 0 <= i < |rest| ensures rest[i] == xs[if i < k then i else i + 1] {
      }
    }
  }

  /** The shuffle reorders its input and nothing else. */
  lemma {:induction false} ShuffleIsPermutation(xs: seq<MovieId>, entropy: seq<nat>)
    ensures |Shuffle(xs, entropy)| == |xs|
    ensures multiset(Shuffle(xs, entropy)) == multiset(xs)
  {
    if xs != [] {
      var k := Choice(entropy, |xs|);
      var rest := xs[..k] + xs[k + 1..];
      ShuffleIsPermutation(rest, Later(entropy));
      RemoveAt(xs, k);
      assert Shuffle(xs, entropy) == [xs[k]] + Shuffle(rest, Later(entropy));
    }
  }

  /** Shuffling a list without repetitions gives a list without repetitions. */
  lemma {:induction false} ShuffleKeepsDistinct(xs: seq<MovieId>, entropy: seq<nat>)
    requires Distinct(xs)
    ensures Distinct(Shuffle(xs, entropy))
  {
    if xs != [] {
      var k := Choice(entropy, |xs|);
      var rest := xs[..k] + xs[k + 1..];
      var more := Later(entropy);
      RemoveAt(xs, k);
      ShuffleKeepsDistinct(rest, more);
      ShuffleIsPermutation(rest, more);
      var r := Shuffle(rest, more);
      assert xs[k] !in multiset(r);
      forall i, j | 0 <= i < j < |r| + 1 ensures ([xs[k]] + r)[i] != ([xs[k]] + r)[j] {
        if i == 0 {
          assert r[j - 1] in multiset(r);
        }
      }
    }
  }

  /** Matching the first element of `order` with `xs[k]` leaves two rearrangements of each other. */
  lemma MatchHead(xs: seq<MovieId>, order: seq<MovieId>, k: nat)
    requires multiset(order) == multiset(xs)
    requires order != [] && k < |xs| && xs[k] == order[0]
    ensures multiset(order[1..]) == multiset(xs[..k] + xs[k + 1..])
  {
    RemoveAt(xs, k);
    assert order == [order[0]] + order[1..];
    var a, b := multiset(order[1..]), multiset(xs[..k] + xs[k + 1..]);
    assert a + multiset{order[0]} == b + multiset{order[0]};
    forall y ensures a[y] == b[y] {
      assert (a + multiset{order[0]})[y] == (b + multiset{order[0]})[y];
    }
  }

  /** Two rearrangements of each other have the same length and the same elements. */
  lemma Rearranged(xs: seq<MovieId>, order: seq<MovieId>)
    requires multiset(order) == multiset(xs)
    ensures |order| == |xs|
    ensures order != [] ==> order[0] in xs
  {
    assert |order| == |multiset(order)| == |multiset(xs)| == |xs|;
    if order != [] {
      assert order[0] in multiset(order);
    }
  }

  /** The position of `x` in `xs`. */
  function IndexOf(xs: seq<MovieId>, x: MovieId): (k: nat)
    requires x in xs
    ensures k < |xs| && xs[k] == x
  {
    if xs[0] == x then 0 else 1 + IndexOf(xs[1..], x)
  }

  /** Random choices under which the shuffle of `xs` comes out as `order`. */
  ghost function ChoicesFor(xs: seq<MovieId>, order: seq<MovieId>): seq<nat>
    requires multiset(order) == multiset(xs)
    decreases |xs|
  {
    if xs == [] then []
    else
      Rearranged(xs, order);
      var k := IndexOf(xs, order[0]);
      MatchHead(xs, order, k);
      [k] + ChoicesFor(xs[..k] + xs[k + 1..], order[1..])
  }

  /** The shuffle whose first choice is `k`. */
  lemma ShuffleFirstChoice(xs: seq<MovieId>, k: nat, more: seq<nat>)
    requires k < |xs|
    ensures Shuffle(xs, [k] + more) == [xs[k]] + Shuffle(xs[..k] + xs[k + 1..], more)
  {
    var entropy := [k] + more;
    assert entropy[0] == k;
    assert Later(entropy) == more;
    assert Choice(entropy, |xs|) == k;
  }

  /** Any order of the PROPOSED movies can come out of the shuffle. */
  lemma {:induction false} EveryOrderIsReachable(xs: seq<MovieId>, order: seq<MovieId>)
    requires multiset(order) == multiset(xs)
    ensures Shuffle(xs, ChoicesFor(xs, order)) == order
  {
    Rearranged(xs, order);
    if xs != [] {
      var k := IndexOf(xs, order[0]);
      var rest := xs[..k] + xs[k + 1..];
      MatchHead(xs, order, k);
      var more := ChoicesFor(rest, order[1..]);
      EveryOrderIsReachable(rest, order[1..]);
      ShuffleFirstChoice(xs, k, more);
      assert order == [order[0]] + order[1..];
    }
  }

  /**
   * The movies table after the scheduling loop has run over `order`: the movie
   * at `order[i]` gets week `i + 1` and status QUEUED, in that order; an id with
   * no row updates nothing.
   */
  function AssignWeeks(ms: seq<Movie>, order: seq<MovieId>): (r: seq<Movie>)
    ensures |r| == |ms|
  {
    if order == [] then ms
    else
      var done := AssignWeeks(ms, order[..|order| - 1]);
      var id := order[|order| - 1];
      if id < |done| then done[id := done[id].(weekNumber := Some(|order|), status := Queued)] else done
  }

  /** Scheduling writes the week number and the status and no other column. */
  lemma {:induction false} AssignWeeksKeepsColumns(ms: seq<Movie>, order: seq<MovieId>)
    ensures var r := AssignWeeks(ms, order);
      forall i :: 0 <= i < |ms| ==> r[i] == ms[i].(weekNumber := r[i].weekNumber, status := r[i].status)
  {
    if order != [] {
      AssignWeeksKeepsColumns(ms, order[..|order| - 1]);
    }
  }

  /** One more turn of the scheduling loop. */
  lemma AssignWeeksNext(ms: seq<Movie>, order: seq<MovieId>, i: nat)
    requires i < |order|
    ensures var done := AssignWeeks(ms, order[..i]);
      AssignWeeks(ms, order[..i + 1]) ==
        if order[i] < |done| then done[order[i] := done[order[i]].(weekNumber := Some(i + 1), status := Queued)] else done
  {
    assert order[..i + 1][..i] == order[..i];
  }

  /** The `k`-th movie of a repetition-free order gets week `k + 1` and the status QUEUED. */
  lemma {:induction false} AssignWeeksAt(ms: seq<Movie>, order: seq<MovieId>)
    requires Distinct(order)
    ensures forall k :: 0 <= k < |order| && order[k] < |ms| ==>
      AssignWeeks(ms, order)[order[k]] == ms[order[k]].(weekNumber := Some(k + 1), status := Queued)
  {
    if order != [] {
      var prefix := order[..|order| - 1];
      var last := order[|order| - 1];
      assert Distinct(prefix);
      AssignWeeksAt(ms, prefix);
      AssignWeeksLeavesOthers(ms, prefix);
      var done := AssignWeeks(ms, prefix);
      assert last !in prefix;
      forall k | 0 <= k < |order| && order[k] < |ms|
        ensures AssignWeeks(ms, order)[order[k]] == ms[order[k]].(weekNumber := Some(k + 1), status := Queued)
      {
        if k < |prefix| {
          assert prefix[k] == order[k] && order[k] != last;
        } else {
          assert done[last] == ms[last];
        }
      }
    }
  }

  /** A movie the order does not name is left as it was. */
  lemma {:induction false} AssignWeeksLeavesOthers(ms: seq<Movie>, order: seq<MovieId>)
    ensures forall i :: 0 <= i < |ms| && i !in order ==> AssignWeeks(ms, order)[i] == ms[i]
  {
    if order != [] {
      var prefix := order[..|order| - 1];
      AssignWeeksLeavesOthers(ms, prefix);
      assert order == prefix + [order[|order| - 1]];
    }
  }

  function ScheduleStep(s: Store, entropy: seq<nat>): Store {
    s.(movies := AssignWeeks(s.movies, Shuffle(ProposedIds(s.movies), entropy)),
       phaseRow := UpsertKey(s.phaseRow, Vetting),
       weekRow := UpsertKey(s.weekRow, 1))
  }

  // ---------------------------------------------------------------- getActiveMovie

  predicate InWeek(m: Movie, week: int, st: Status) {
    m.weekNumber == Some(week) && m.status == st
  }

  /** The first movie with the given week number and status. */
  function InWeekFirst(ms: seq<Movie>, week: int, st: Status): Option<nat> {
    FindFirst(ms, m => InWeek(m, week, st))
  }

  /** The QUEUED movie of the current week; none while the week is 0. */
  function GetActiveMovie(s: Store): (r: Option<MovieId>)
    ensures GetAppState(s).week == 0 ==> r.None?
    ensures r.Some? ==> r.value < |s.movies| && InWeek(s.movies[r.value], GetAppState(s).week, Queued)
    ensures r.Some? ==> forall j :: 0 <= j < r.value ==> !InWeek(s.movies[j], GetAppState(s).week, Queued)
    ensures GetAppState(s).week != 0 && r.None? ==>
      forall i :: 0 <= i < |s.movies| ==> !InWeek(s.movies[i], GetAppState(s).week, Queued)
  {
    var week := GetAppState(s).week;
    if week == 0 then None else InWeekFirst(s.movies, week, Queued)
  }

  // ---------------------------------------------------------------- submitVetting

  predicate IsNotSeenFor(v: Vote, m: MovieId) {
    v.movieId == m && v.comment == VettingNotSeen
  }

  function NotSeenCount(vs: seq<Vote>, m: MovieId): nat {
    Count(vs, v => IsNotSeenFor(v, m))
  }

  lemma NotSeenCountAppend(vs: seq<Vote>, m: MovieId, x: Vote)
    ensures NotSeenCount(vs + [x], m) == NotSeenCount(vs, m) + (if IsNotSeenFor(x, m) then 1 else 0)
  {
    CountAppend(vs, x, v => IsNotSeenFor(v, m));
  }

  function SubmitVettingStep(s: Store, u: UserId, seen: bool): Step<Outcome> {
    match GetActiveMovie(s)
    case None => Step(s, Thrown(NoActiveMovie))
    case Some(m) =>
      if seen then Step(s.(movies := SetStatus(s.movies, m, Rejected)), Done)
      else
        var votes := s.votes + [Vote(m, u, 0, VettingNotSeen)];
        var quorum := NotSeenCount(votes, m) >= |s.users|;
        Step(s.(votes := votes, phaseRow := if quorum then UpdateKey(s.phaseRow, Watching) else s.phaseRow), Done)
  }

  // ---------------------------------------------------------------- submitVote

  predicate IsRatingFor(v: Vote, m: MovieId) {
    v.movieId == m && v.comment == Rating
  }

  predicate IsRatingBy(v: Vote, m: MovieId, u: UserId) {
    v.movieId == m && v.userId == u && v.comment == Rating
  }

  function RatingCount(vs: seq<Vote>, m: MovieId): nat {
    Count(vs, v => IsRatingFor(v, m))
  }

  function RatingsBy(vs: seq<Vote>, m: MovieId, u: UserId): nat {
    Count(vs, v => IsRatingBy(v, m, u))
  }

  function OwnRating(vs: seq<Vote>, m: MovieId, u: UserId): Option<nat> {
    FindFirst(vs, v => IsRatingBy(v, m, u))
  }

  lemma RatingCountAppend(vs: seq<Vote>, m: MovieId, x: Vote)
    ensures RatingCount(vs + [x], m) == RatingCount(vs, m) + (if IsRatingFor(x, m) then 1 else 0)
  {
    CountAppend(vs, x, v => IsRatingFor(v, m));
  }

  lemma RatingCountUpdate(vs: seq<Vote>, m: MovieId, i: nat, x: Vote)
    requires i < |vs|
    ensures RatingCount(vs[i := x], m) == RatingCount(vs, m) - (if IsRatingFor(vs[i], m) then 1 else 0) + (if IsRatingFor(x, m) then 1 else 0)
  {
    CountUpdate(vs, i, x, v => IsRatingFor(v, m));
  }

  /** The votes table after submitVote's upsert of the user's RATING row. */
  function RecordRating(vs: seq<Vote>, m: MovieId, u: UserId, score: int): seq<Vote> {
    match OwnRating(vs, m, u)
    case Some(i) => vs[i := vs[i].(score := score)]
    case None => vs + [Vote(m, u, score, Rating)]
  }

  /** No member has two RATING rows for one movie. */
  ghost predicate OneRatingPerMember(vs: seq<Vote>) {
    forall i, j :: 0 <= i < j < |vs| && vs[i].comment == Rating && vs[j].comment == Rating ==>
      vs[i].movieId != vs[j].movieId || vs[i].userId != vs[j].userId
  }

  /**
   * The tables once every member has rated movie `m`: it is COMPLETED, the
   * stored week advances, and the phase goes to VETTING when a QUEUED movie
   * is scheduled for the new week, otherwise to SUBMISSION with the week reset
   * to 0. `app_state` rows are only updated, never inserted.
   */
  function CompleteMovie(s: Store, m: MovieId): Store {
    var movies := SetStatus(s.movies, m, Completed);
    var nextWeek := s.weekRow.GetOr(0) + 1;
    var weekRow := UpdateKey(s.weekRow, nextWeek);
    if InWeekFirst(movies, nextWeek, Queued).Some? then
      s.(movies := movies, weekRow := weekRow, phaseRow := UpdateKey(s.phaseRow, Vetting))
    else
      s.(movies := movies, phaseRow := UpdateKey(s.phaseRow, Submission), weekRow := UpdateKey(weekRow, 0))
  }

  function SubmitVoteStep(s: Store, u: UserId, score: int): Step<Outcome> {
    if GetAppState(s).phase != Watching then Step(s, Thrown(NotInVotingPhase))
    else
      match GetActiveMovie(s)
      case None => Step(s, Thrown(NoActiveMovie))
      case Some(m) =>
        var voted := s.(votes := RecordRating(s.votes, m, u, score));
        if RatingCount(voted.votes, m) >= |s.users| then Step(CompleteMovie(voted, m), Done)
        else Step(voted, Done)
  }

  // ---------------------------------------------------------------- the handlers on the database

  method SubmitMovie(db: Database, userId: UserId, title: Option<string>, coverUrl: Option<string>, entropy: seq<nat>)
    returns (r: Outcome)
    requires db.Valid()
    modifies db`movies, db`phaseRow, db`weekRow
    ensures db.Valid()
    ensures Step(db.Tables(), r) == SubmitMovieStep(old(db.Tables()), userId, title, coverUrl, entropy)
  {
    var state := GetAppState(db.Tables());
    if state.phase != Submission {
      return Thrown(NotInSubmissionPhase);
    }
    var existing := OwnProposal(db.movies, userId);
    if existing.Some? {
      var i := existing.value;
      var cover := if coverUrl.Some? then coverUrl else db.movies[i].coverUrl;
      var name := if title.Some? then title.value else db.movies[i].title;
      db.movies := db.movies[i := db.movies[i].(title := name, coverUrl := cover)];
    } else {
      if title.None? {
        return Thrown(TitleNotNull);
      }
      db.movies := db.movies + [Movie(|db.movies|, title.value, None, None, coverUrl, Some(userId), Proposed, None, None)];
    }
    ghost var upserted := old(db.Tables()).(movies := Resubmit(old(db.movies), userId, title, coverUrl));
    assert db.Tables() == upserted;
    var userCount := |db.users|;
    var submissions := Count(db.movies, IsProposed);
    if submissions >= userCount && userCount > 0 {
      ScheduleMovies(db, entropy);
      assert db.Tables() == ScheduleStep(upserted, entropy);
    }
    r := Done;
  }

  method ScheduleMovies(db: Database, entropy: seq<nat>)
    requires db.Valid()
    modifies db`movies, db`phaseRow, db`weekRow
    ensures db.Valid()
    ensures db.movies == AssignWeeks(old(db.movies), Shuffle(ProposedIds(old(db.movies)), entropy))
    ensures db.phaseRow == Some(Vetting) && db.weekRow == Some(1)
  {
    var props := ProposedIds(db.movies);
    var shuffled := Shuffle(props, entropy);
    ghost var before := db.movies;
    var i := 0;
    while i < |shuffled|
      invariant 0 <= i <= |shuffled|
      invariant db.movies == AssignWeeks(before, shuffled[..i])
    {
      AssignWeeksNext(before, shuffled, i);
      var id := shuffled[i];
      if id < |db.movies| {
        db.movies := db.movies[id := db.movies[id].(weekNumber := Some(i + 1), status := Queued)];
      }
      i := i + 1;
    }
    assert shuffled[..|shuffled|] == shuffled;
    AssignWeeksKeepsColumns(before, shuffled);
    db.phaseRow := UpsertKey(db.phaseRow, Vetting);
    db.weekRow := UpsertKey(db.weekRow, 1);
  }

  method SubmitVetting(db: Database, userId: UserId, seen: bool) returns (r: Outcome)
    requires db.Valid()
    modifies db`movies, db`votes, db`phaseRow
    ensures db.Valid()
    ensures Step(db.Tables(), r) == SubmitVettingStep(old(db.Tables()), userId, seen)
  {
    var movie := GetActiveMovie(db.Tables());
    if movie.None? {
      return Thrown(NoActiveMovie);
    }
    var m := movie.value;
    if seen {
      db.movies := db.movies[m := db.movies[m].(status := Rejected)];
    } else {
      db.votes := db.votes + [Vote(m, userId, 0, VettingNotSeen)];
      var allUsersCount := |db.users|;
      var notSeenCount := NotSeenCount(db.votes, m);
      if notSeenCount >= allUsersCount {
        db.phaseRow := UpdateKey(db.phaseRow, Watching);
      }
    }
    r := Done;
  }

  /** The `voteCount >= allUsersCount` branch of submitVote. */
  method CloseVoting(db: Database, m: MovieId)
    requires db.Valid()
    modifies db`movies, db`phaseRow, db`weekRow
    ensures db.Valid()
    ensures db.Tables() == CompleteMovie(old(db.Tables()), m)
  {
    ghost var before := db.Tables();
    db.movies := SetStatus(db.movies, m, Completed);
    SetStatusKeepsIds(before, m, Completed);
    var currentWeek := db.weekRow.GetOr(0);
    var nextWeek := currentWeek + 1;
    db.weekRow := UpdateKey(db.weekRow, nextWeek);
    var nextMovie := InWeekFirst(db.movies, nextWeek, Queued);
    if nextMovie.Some? {
      db.phaseRow := UpdateKey(db.phaseRow, Vetting);
    } else {
      db.phaseRow := UpdateKey(db.phaseRow, Submission);
      db.weekRow := UpdateKey(db.weekRow, 0);
    }
  }

  method SubmitVote(db: Database, userId: UserId, score: int) returns (r: Outcome)
    requires db.Valid()
    modifies db`movies, db`votes, db`phaseRow, db`weekRow
    ensures db.Valid()
    ensures Step(db.Tables(), r) == SubmitVoteStep(old(db.Tables()), userId, score)
  {
    var state := GetAppState(db.Tables());
    if state.phase != Watching {
      return Thrown(NotInVotingPhase);
    }
    var movie := GetActiveMovie(db.Tables());
    if movie.None? {
      return Thrown(NoActiveMovie);
    }
    var m := movie.value;
    var existing := OwnRating(db.votes, m, userId);
    if existing.Some? {
      var i := existing.value;
      db.votes := db.votes[i := db.votes[i].(score := score)];
    } else {
      db.votes := db.votes + [Vote(m, userId, score, Rating)];
    }
    var allUsersCount := |db.users|;
    var voteCount := RatingCount(db.votes, m);
    if voteCount >= allUsersCount {
      CloseVoting(db, m);
    }
    r := Done;
  }
}
