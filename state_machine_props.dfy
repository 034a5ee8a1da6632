/**
 * What the library lifecycle in `src/lib/state-machine.ts` promises, stated
 * over the step functions of module StateMachine (and so about the handlers,
 * whose contracts tie them to those functions).
 */
module StateMachineProperties {
  import opened Wrappers
  import opened Queries
  import opened Schema
  import opened StateMachine

  // ---------------------------------------------------------------- submitMovie

  /**
   * A re-submission edits the member's PROPOSED row in place and adds none; a
   * first submission appends exactly one PROPOSED row owned by the member.
   */
  lemma ResubmitUpserts(ms: seq<Movie>, u: UserId, title: Option<string>, coverUrl: Option<string>)
    requires CanUpsert(ms, u, title)
    ensures var r := Resubmit(ms, u, title, coverUrl);
      match OwnProposal(ms, u)
      case Some(i) =>
        && |r| == |ms| && i < |ms| && IsProposalOf(ms[i], u)
        && r[i].title == (if title.Some? then title.value else ms[i].title)
        && r[i].coverUrl == (if coverUrl.Some? then coverUrl else ms[i].coverUrl)
        && r[i].(title := ms[i].title, coverUrl := ms[i].coverUrl) == ms[i]
        && (forall j :: 0 <= j < |ms| && j != i ==> r[j] == ms[j])
        && Count(r, IsProposed) == Count(ms, IsProposed)
      case None =>
        && (forall j :: 0 <= j < |ms| ==> !IsProposalOf(ms[j], u))
        && |r| == |ms| + 1 && r[..|ms|] == ms
        && title.Some?
        && r[|ms|] == Movie(|ms|, title.value, None, None, coverUrl, Some(u), Proposed, None, None)
        && Count(r, IsProposed) == Count(ms, IsProposed) + 1
  {
    var r := Resubmit(ms, u, title, coverUrl);
    match OwnProposal(ms, u)
    case Some(i) =>
      CountUpdate(ms, i, r[i], IsProposed);
      assert r == ms[i := r[i]];
    case None =>
      var row := r[|ms|];
      CountAppend(ms, row, IsProposed);
      assert r == ms + [row];
  }

  /** Used alone, submitMovie never gives a member a second PROPOSED movie. */
  lemma ResubmitKeepsOneProposalPerMember(ms: seq<Movie>, u: UserId, title: Option<string>, coverUrl: Option<string>)
    requires CanUpsert(ms, u, title)
    requires OneProposalPerMember(ms)
    ensures OneProposalPerMember(Resubmit(ms, u, title, coverUrl))
  {
    ResubmitUpserts(ms, u, title, coverUrl);
    var r := Resubmit(ms, u, title, coverUrl);
    assert forall j :: 0 <= j < |ms| ==> r[j].proposedBy == ms[j].proposedBy && r[j].status == ms[j].status;
  }

  /**
   * submitMovie throws outside SUBMISSION and changes nothing; otherwise it
   * upserts the member's movie and schedules the batch exactly when the
   * PROPOSED movies (counting the one just added) reach the member count and
   * there is at least one member. Only the movies and app_state change.
   */
  lemma SubmitMovieContract(s: Store, u: UserId, title: Option<string>, coverUrl: Option<string>, entropy: seq<nat>)
    ensures var st := SubmitMovieStep(s, u, title, coverUrl, entropy);
      GetAppState(s).phase != Submission ==> st == Step(s, Thrown(NotInSubmissionPhase))
    ensures var st := SubmitMovieStep(s, u, title, coverUrl, entropy);
      GetAppState(s).phase == Submission && OwnProposal(s.movies, u).None? && title.None? ==>
        st == Step(s, Thrown(TitleNotNull))
    ensures var st := SubmitMovieStep(s, u, title, coverUrl, entropy);
      var batchComplete :=
        Count(s.movies, IsProposed) + (if OwnProposal(s.movies, u).None? then 1 else 0) >= |s.users| && |s.users| > 0;
      GetAppState(s).phase == Submission && CanUpsert(s.movies, u, title) ==>
        && st.result == Done
        && st.after.users == s.users && st.after.votes == s.votes
        && st.after.responses == s.responses && st.after.subscriptions == s.subscriptions
        && (st.after.phaseRow == Some(Vetting) <==> batchComplete)
        && (batchComplete ==> st.after == ScheduleStep(s.(movies := Resubmit(s.movies, u, title, coverUrl)), entropy))
        && (!batchComplete ==> st.after == s.(movies := Resubmit(s.movies, u, title, coverUrl)))
  {
    if CanUpsert(s.movies, u, title) {
      ResubmitUpserts(s.movies, u, title, coverUrl);
    }
  }

  // ---------------------------------------------------------------- scheduleMovies

  /** Some PROPOSED movie of `ms` is given week `w` in `r`. */
  ghost predicate WeekTaken(ms: seq<Movie>, r: seq<Movie>, w: int)
    requires |r| == |ms|
  {
    exists i :: 0 <= i < |ms| && IsProposed(ms[i]) && r[i].weekNumber == Some(w)
  }

  /** Where a PROPOSED movie lands in the shuffled order. */
  lemma PlaceInShuffle(ms: seq<Movie>, entropy: seq<nat>, i: nat) returns (k: nat)
    requires i < |ms| && IsProposed(ms[i])
    ensures var sh := Shuffle(ProposedIds(ms), entropy); k < |sh| && sh[k] == i
  {
    var ids := ProposedIds(ms);
    var sh := Shuffle(ids, entropy);
    ProposedIdsAreTheProposals(ms);
    ShuffleIsPermutation(ids, entropy);
    assert i in multiset(ids);
    assert i in multiset(sh);
    k :| 0 <= k < |sh| && sh[k] == i;
  }

  /** Whatever is in the shuffled order is a PROPOSED movie. */
  lemma ShuffledAreProposals(ms: seq<Movie>, entropy: seq<nat>, k: nat)
    requires k < |Shuffle(ProposedIds(ms), entropy)|
    ensures var id := Shuffle(ProposedIds(ms), entropy)[k]; id < |ms| && IsProposed(ms[id])
  {
    var ids := ProposedIds(ms);
    var sh := Shuffle(ids, entropy);
    ProposedIdsAreTheProposals(ms);
    ShuffleIsPermutation(ids, entropy);
    assert sh[k] in multiset(sh);
    assert sh[k] in multiset(ids);
    var j :| 0 <= j < |ids| && ids[j] == sh[k];
  }

  /** The movies table as scheduleMovies leaves it. */
  function Scheduled(ms: seq<Movie>, entropy: seq<nat>): seq<Movie> {
    AssignWeeks(ms, Shuffle(ProposedIds(ms), entropy))
  }

  /** Every movie that was PROPOSED is QUEUED with a week in 1..N. */
  lemma ScheduledProposalsAreQueued(ms: seq<Movie>, entropy: seq<nat>, i: nat)
    requires i < |ms| && IsProposed(ms[i])
    ensures var r := Scheduled(ms, entropy);
      |r| == |ms| && r[i].status == Queued && r[i].weekNumber.Some? &&
      1 <= r[i].weekNumber.value <= Count(ms, IsProposed)
  {
    var ids := ProposedIds(ms);
    var sh := Shuffle(ids, entropy);
    ProposedIdsAreTheProposals(ms);
    ShuffleIsPermutation(ids, entropy);
    ShuffleKeepsDistinct(ids, entropy);
    AssignWeeksAt(ms, sh);
    AssignWeeksLeavesOthers(ms, sh);
    var k := PlaceInShuffle(ms, entropy, i);
  }

  /** Movies that were not PROPOSED are left alone. */
  lemma ScheduledOthersUnchanged(ms: seq<Movie>, entropy: seq<nat>, i: nat)
    requires i < |ms| && !IsProposed(ms[i])
    ensures var r := Scheduled(ms, entropy); |r| == |ms| && r[i] == ms[i]
  {
    var ids := ProposedIds(ms);
    var sh := Shuffle(ids, entropy);
    ShuffleKeepsDistinct(ids, entropy) by { ProposedIdsAreTheProposals(ms); }
    AssignWeeksAt(ms, sh);
    AssignWeeksLeavesOthers(ms, sh);
    if i in sh {
      var k :| 0 <= k < |sh| && sh[k] == i;
      ShuffledAreProposals(ms, entropy, k);
    }
  }

  /** Two PROPOSED movies never get the same week. */
  lemma ScheduledWeeksDiffer(ms: seq<Movie>, entropy: seq<nat>, i: nat, j: nat)
    requires i < j < |ms| && IsProposed(ms[i]) && IsProposed(ms[j])
    ensures var r := Scheduled(ms, entropy); |r| == |ms| && r[i].weekNumber != r[j].weekNumber
  {
    var ids := ProposedIds(ms);
    var sh := Shuffle(ids, entropy);
    ShuffleKeepsDistinct(ids, entropy) by { ProposedIdsAreTheProposals(ms); }
    AssignWeeksAt(ms, sh);
    AssignWeeksLeavesOthers(ms, sh);
    var ki := PlaceInShuffle(ms, entropy, i);
    var kj := PlaceInShuffle(ms, entropy, j);
  }

  /** Every week in 1..N goes to some PROPOSED movie. */
  lemma ScheduledWeekTaken(ms: seq<Movie>, entropy: seq<nat>, w: int)
    requires 1 <= w <= Count(ms, IsProposed)
    ensures |Scheduled(ms, entropy)| == |ms| && WeekTaken(ms, Scheduled(ms, entropy), w)
  {
    var ids := ProposedIds(ms);
    var sh := Shuffle(ids, entropy);
    ProposedIdsAreTheProposals(ms);
    ShuffleIsPermutation(ids, entropy);
    ShuffleKeepsDistinct(ids, entropy);
    AssignWeeksAt(ms, sh);
    AssignWeeksLeavesOthers(ms, sh);
    ShuffledAreProposals(ms, entropy, w - 1);
    assert Scheduled(ms, entropy)[sh[w - 1]].weekNumber == Some(w);
  }

  /**
   * After scheduling, every movie that was PROPOSED is QUEUED with a week
   * number in 1..N (N the number of PROPOSED movies), no two share a week and
   * every week of 1..N is taken, so the weeks are a permutation of 1..N. Every
   * other column and every other movie is unchanged, phase is VETTING and week 1.
   */
  lemma ScheduleQueuesEveryProposal(s: Store, entropy: seq<nat>)
    ensures var a := ScheduleStep(s, entropy);
      && |a.movies| == |s.movies|
      && (forall i :: 0 <= i < |s.movies| && IsProposed(s.movies[i]) ==>
            a.movies[i].status == Queued && a.movies[i].weekNumber.Some? &&
            1 <= a.movies[i].weekNumber.value <= Count(s.movies, IsProposed))
      && (forall i :: 0 <= i < |s.movies| && !IsProposed(s.movies[i]) ==> a.movies[i] == s.movies[i])
      && (forall i :: 0 <= i < |s.movies| ==>
            a.movies[i] == s.movies[i].(weekNumber := a.movies[i].weekNumber, status := a.movies[i].status))
      && (forall i, j :: 0 <= i < j < |s.movies| && IsProposed(s.movies[i]) && IsProposed(s.movies[j]) ==>
            a.movies[i].weekNumber != a.movies[j].weekNumber)
      && (forall w :: 1 <= w <= Count(s.movies, IsProposed) ==> WeekTaken(s.movies, a.movies, w))
      && a.phaseRow == Some(Vetting) && a.weekRow == Some(1)
      && a.users == s.users && a.votes == s.votes && a.responses == s.responses
      && a.subscriptions == s.subscriptions
  {
    var ms := s.movies;
    assert ScheduleStep(s, entropy).movies == Scheduled(ms, entropy);
    AssignWeeksKeepsColumns(ms, Shuffle(ProposedIds(ms), entropy));
    forall i | 0 <= i < |ms| && IsProposed(ms[i])
      ensures Scheduled(ms, entropy)[i].status == Queued && Scheduled(ms, entropy)[i].weekNumber.Some? &&
        1 <= Scheduled(ms, entropy)[i].weekNumber.value <= Count(ms, IsProposed)
    {
      ScheduledProposalsAreQueued(ms, entropy, i);
    }
    forall i | 0 <= i < |ms| && !IsProposed(ms[i]) ensures Scheduled(ms, entropy)[i] == ms[i] {
      ScheduledOthersUnchanged(ms, entropy, i);
    }
    forall i, j | 0 <= i < j < |ms| && IsProposed(ms[i]) && IsProposed(ms[j])
      ensures Scheduled(ms, entropy)[i].weekNumber != Scheduled(ms, entropy)[j].weekNumber
    {
      ScheduledWeeksDiffer(ms, entropy, i, j);
    }
    forall w | 1 <= w <= Count(ms, IsProposed) ensures WeekTaken(ms, Scheduled(ms, entropy), w) {
      ScheduledWeekTaken(ms, entropy, w);
    }
  }

  // ---------------------------------------------------------------- submitVetting

  /**
   * submitVetting throws when there is no active movie. Otherwise `seen`
   * rejects the active movie and leaves phase, week and votes alone; not seen
   * appends a VETTING_NOT_SEEN row without looking for an earlier one, and moves
   * the phase to WATCHING exactly when those rows reach the member count.
   */
  lemma SubmitVettingContract(s: Store, u: UserId, seen: bool)
    ensures var st := SubmitVettingStep(s, u, seen);
      GetActiveMovie(s).None? ==> st == Step(s, Thrown(NoActiveMovie))
    ensures var st := SubmitVettingStep(s, u, seen);
      GetActiveMovie(s).Some? && seen ==>
        var m := GetActiveMovie(s).value;
        && st.result == Done
        && |st.after.movies| == |s.movies| && st.after.movies[m].status == Rejected
        && st.after.movies[m].(status := s.movies[m].status) == s.movies[m]
        && (forall j :: 0 <= j < |s.movies| && j != m ==> st.after.movies[j] == s.movies[j])
        && st.after == s.(movies := st.after.movies)
    ensures var st := SubmitVettingStep(s, u, seen);
      GetActiveMovie(s).Some? && !seen ==>
        var m := GetActiveMovie(s).value;
        && st.result == Done
        && |st.after.votes| == |s.votes| + 1 && st.after.votes[..|s.votes|] == s.votes
        && st.after.votes[|s.votes|] == Vote(m, u, 0, VettingNotSeen)
        && NotSeenCount(st.after.votes, m) == NotSeenCount(s.votes, m) + 1
        && (NotSeenCount(s.votes, m) + 1 >= |s.users| ==> st.after.phaseRow == UpdateKey(s.phaseRow, Watching))
        && (NotSeenCount(s.votes, m) + 1 < |s.users| ==> st.after.phaseRow == s.phaseRow)
        && st.after == s.(votes := st.after.votes, phaseRow := st.after.phaseRow)
  {
    if GetActiveMovie(s).Some? && !seen {
      var m := GetActiveMovie(s).value;
      NotSeenCountAppend(s.votes, m, Vote(m, u, 0, VettingNotSeen));
    }
  }

  /**
   * The library does not deduplicate "not seen": the same member answering
   * twice leaves two VETTING_NOT_SEEN rows and counts twice toward the quorum.
   */
  lemma NotSeenIsNotDeduplicated(s: Store, u: UserId)
    requires GetActiveMovie(s).Some?
    ensures var once := SubmitVettingStep(s, u, false).after;
      var twice := SubmitVettingStep(once, u, false).after;
      var m := GetActiveMovie(s).value;
      GetActiveMovie(once) == GetActiveMovie(s) &&
      |twice.votes| == |s.votes| + 2 &&
      NotSeenCount(twice.votes, m) == NotSeenCount(s.votes, m) + 2
  {
    var m := GetActiveMovie(s).value;
    SubmitVettingContract(s, u, false);
    var once := SubmitVettingStep(s, u, false).after;
    assert once.movies == s.movies && once.weekRow == s.weekRow;
    assert GetAppState(once).week == GetAppState(s).week;
    SubmitVettingContract(once, u, false);
  }

  /**
   * A rejection in the library leaves the phase at VETTING: submitMovie and
   * submitVote refuse, and when no other movie is QUEUED for the week there is
   * no active movie left for submitVetting either.
   */
  lemma RejectionLeavesPhaseAtVetting(s: Store, u: UserId, title: Option<string>, coverUrl: Option<string>, entropy: seq<nat>, score: int)
    requires s.phaseRow == Some(Vetting) && GetActiveMovie(s).Some?
    ensures var a := SubmitVettingStep(s, u, true).after;
      && GetAppState(a).phase == Vetting
      && SubmitMovieStep(a, u, title, coverUrl, entropy) == Step(a, Thrown(NotInSubmissionPhase))
      && SubmitVoteStep(a, u, score) == Step(a, Thrown(NotInVotingPhase))
    ensures var a := SubmitVettingStep(s, u, true).after;
      (forall i :: 0 <= i < |s.movies| && i != GetActiveMovie(s).value ==>
         !InWeek(s.movies[i], GetAppState(s).week, Queued)) ==>
        SubmitVettingStep(a, u, false) == Step(a, Thrown(NoActiveMovie))
  {
    var m := GetActiveMovie(s).value;
    SubmitVettingContract(s, u, true);
    var a := SubmitVettingStep(s, u, true).after;
    assert GetAppState(a) == GetAppState(s);
    if forall i :: 0 <= i < |s.movies| && i != m ==> !InWeek(s.movies[i], GetAppState(s).week, Queued) {
      forall i | 0 <= i < |a.movies| ensures !InWeek(a.movies[i], GetAppState(a).week, Queued) {
        if i != m {
          assert a.movies[i] == s.movies[i];
        }
      }
    }
  }

  // ---------------------------------------------------------------- submitVote

  /**
   * submitVote's upsert: the member's RATING row for the movie gets the new
   * score (and is added when missing); no other row changes.
   */
  lemma RecordRatingUpserts(vs: seq<Vote>, m: MovieId, u: UserId, score: int)
    ensures var r := RecordRating(vs, m, u, score);
      && OwnRating(r, m, u).Some? && r[OwnRating(r, m, u).value].score == score
      && |r| == |vs| + (if OwnRating(vs, m, u).None? then 1 else 0)
      && (forall j :: 0 <= j < |vs| && !IsRatingBy(vs[j], m, u) ==> r[j] == vs[j])
      && RatingCount(r, m) == RatingCount(vs, m) + (if OwnRating(vs, m, u).None? then 1 else 0)
  {
    var r := RecordRating(vs, m, u, score);
    match OwnRating(vs, m, u)
    case Some(i) =>
      RatingCountUpdate(vs, m, i, r[i]);
      assert r == vs[i := r[i]];
      assert OwnRating(r, m, u).Some?;
      assert OwnRating(r, m, u).value == i;
    case None =>
      var row := Vote(m, u, score, Rating);
      RatingCountAppend(vs, m, row);
      assert OwnRating(r, m, u).Some?;
      assert OwnRating(r, m, u).value == |vs|;
  }

  /** At most one RATING row per (movie, member) is kept by submitVote. */
  lemma RecordRatingKeepsOneRatingPerMember(vs: seq<Vote>, m: MovieId, u: UserId, score: int)
    requires OneRatingPerMember(vs)
    ensures OneRatingPerMember(RecordRating(vs, m, u, score))
  {
    var r := RecordRating(vs, m, u, score);
    match OwnRating(vs, m, u)
    case Some(i) =>
      assert forall j :: 0 <= j < |vs| ==> r[j].(score := vs[j].score) == vs[j];
    case None =>
      assert forall j :: 0 <= j < |vs| ==> r[j] == vs[j];
  }

  /** Some movie is QUEUED for week `w`. */
  ghost predicate HasQueuedFor(ms: seq<Movie>, w: int) {
    exists i :: 0 <= i < |ms| && InWeek(ms[i], w, Queued)
  }

  /**
   * At the quorum, submitVote marks the movie COMPLETED and advances the week
   * by one; the phase becomes VETTING, with the next week's movie active
   * (unless the new week is 0, which no schedule produces), when a movie is
   * QUEUED for the new week, and SUBMISSION with week 0 otherwise.
   */
  lemma QuorumAdvancesTheWeek(s: Store, u: UserId, score: int)
    requires GetAppState(s).phase == Watching && GetActiveMovie(s).Some?
    requires RatingCount(RecordRating(s.votes, GetActiveMovie(s).value, u, score), GetActiveMovie(s).value) >= |s.users|
    ensures var a := SubmitVoteStep(s, u, score).after;
      var m := GetActiveMovie(s).value;
      var w := GetAppState(s).week;
      && |a.movies| == |s.movies|
      && a.movies[m] == s.movies[m].(status := Completed)
      && (forall j :: 0 <= j < |s.movies| && j != m ==> a.movies[j] == s.movies[j])
      && s.weekRow == Some(w) && w != 0
      && (HasQueuedFor(s.movies, w + 1) ==>
            && a.weekRow == Some(w + 1) && a.phaseRow == Some(Vetting)
            && (w + 1 != 0 ==>
                  GetActiveMovie(a).Some? && InWeek(a.movies[GetActiveMovie(a).value], w + 1, Queued)))
      && (!HasQueuedFor(s.movies, w + 1) ==> a.weekRow == Some(0) && a.phaseRow == Some(Submission))
  {
    var m := GetActiveMovie(s).value;
    var w := GetAppState(s).week;
    var movies := SetStatus(s.movies, m, Completed);
    assert s.movies[m].weekNumber == Some(w);
    var a := SubmitVoteStep(s, u, score).after;
    assert a.movies == movies;
    if HasQueuedFor(s.movies, w + 1) {
      var i :| 0 <= i < |s.movies| && InWeek(s.movies[i], w + 1, Queued);
      assert InWeek(movies[i], w + 1, Queued);
      assert InWeekFirst(movies, w + 1, Queued).Some?;
      assert a.weekRow == Some(w + 1);
      assert GetAppState(a).week == w + 1;
      assert InWeek(a.movies[i], GetAppState(a).week, Queued);
    } else {
      forall i | 0 <= i < |movies| ensures !InWeek(movies[i], w + 1, Queued) {
        assert movies[i].weekNumber == s.movies[i].weekNumber;
      }
      assert InWeekFirst(movies, w + 1, Queued).None?;
    }
  }

  /**
   * submitVote fails outside WATCHING and without an active movie, changing
   * nothing. Otherwise it upserts the member's rating; below the quorum
   * nothing else changes, and at the quorum the week advances as
   * QuorumAdvancesTheWeek says.
   */
  lemma SubmitVoteContract(s: Store, u: UserId, score: int)
    ensures var st := SubmitVoteStep(s, u, score);
      GetAppState(s).phase != Watching ==> st == Step(s, Thrown(NotInVotingPhase))
    ensures var st := SubmitVoteStep(s, u, score);
      GetAppState(s).phase == Watching && GetActiveMovie(s).None? ==> st == Step(s, Thrown(NoActiveMovie))
    ensures var st := SubmitVoteStep(s, u, score);
      GetAppState(s).phase == Watching && GetActiveMovie(s).Some? ==>
        var m := GetActiveMovie(s).value;
        var votes := RecordRating(s.votes, m, u, score);
        && st.result == Done
        && st.after.votes == votes
        && st.after.users == s.users && st.after.responses == s.responses
        && st.after.subscriptions == s.subscriptions
        && (RatingCount(votes, m) < |s.users| ==> st.after == s.(votes := votes))
  {
  }
}
