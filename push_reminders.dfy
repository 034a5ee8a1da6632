/**
 * The reminder cron (`src/app/api/cron/push-reminders/route.ts`): who gets a
 * vetting reminder and who gets a vote reminder. The vetting movie, the members
 * still to vet it, the WATCHING movies and the current time are inputs, the
 * reminders sent are an output; delivering them is not modelled.
 */
module PushReminders {
  import opened Wrappers
  import opened Queries
  import opened Schema
  import opened Http
  import VettingRoute

  /** Two days in milliseconds. */
  const TwoDays := 2 * 24 * 60 * 60 * 1000

  const BearerPrefix := "Bearer "

  /**
   * isAuthorized. `secret` is CRON_SECRET, the empty string when unset; the
   * header and the query parameter are absent or hold a string.
   */
  function IsAuthorized(secret: string, authorization: Option<string>, secretParam: Option<string>): (ok: bool)
    ensures ok <==> secret == "" || authorization == Some(BearerPrefix + secret) || secretParam == Some(secret)
  {
    if secret == "" then true
    else if authorization == Some(BearerPrefix + secret) then true
    else if secretParam == Some(secret) then true
    else false
  }

  /**
   * Once a secret is set, a header carrying the bare secret is refused, and so
   * is a query parameter carrying the header's form.
   */
  lemma BearerPrefixIsRequired(secret: string)
    requires secret != ""
    ensures !IsAuthorized(secret, Some(secret), None)
    ensures !IsAuthorized(secret, None, Some(BearerPrefix + secret))
  {
    assert |BearerPrefix + secret| == |secret| + 7;
  }

  datatype NoticeKind = VettingReminder | VoteReminder

  /** One call of notifyPendingVetting or notifyPendingVotes: who is reminded about which movie. */
  datatype Notice = Notice(kind: NoticeKind, userIds: seq<UserId>, movieTitle: string)

  /** The JSON body `{ success: true, vettingReminders, voteReminders }`. */
  datatype Counts = Counts(vettingReminders: nat, voteReminders: nat)

  /** The vetting reminder: sent when there is a vetting movie and someone has not answered. */
  function VettingNotices(vettingMovie: Option<Movie>, pending: seq<UserId>): (ns: seq<Notice>)
    ensures |ns| <= 1
    ensures ns != [] <==> vettingMovie.Some? && pending != []
    ensures ns != [] ==> ns[0] == Notice(VettingReminder, pending, vettingMovie.value.title)
  {
    if vettingMovie.Some? && |pending| > 0 then [Notice(VettingReminder, pending, vettingMovie.value.title)] else []
  }

  /** `vettingReminders`: the number of pending members when a reminder goes out, else 0. */
  function VettingReminderCount(vettingMovie: Option<Movie>, pending: seq<UserId>): (n: nat)
    ensures vettingMovie.Some? && pending != [] ==> n == |pending|
    ensures vettingMovie.None? || pending == [] ==> n == 0
  {
    if vettingMovie.Some? && |pending| > 0 then |pending| else 0
  }

  /**
   * A WATCHING movie is reminded about when every member has a vetting
   * response for it and it has been in vetting for two days; a start date that
   * is missing or 0 (falsy) does not hold it back.
   */
  predicate VoteReminderDue(m: Movie, s: Store, now: int) {
    && VettingRoute.ResponseCount(s.responses, m.id) >= |s.users|
    && !(m.vettingStartDate.Some? && m.vettingStartDate.value != 0 && m.vettingStartDate.value > now - TwoDays)
  }

  /** The members who have a vote row for movie `m` (`votedUserIds`). */
  function Voters(vs: seq<Vote>, m: MovieId): set<UserId> {
    set v | v in vs && v.movieId == m :: v.userId
  }

  /** A member is a voter of `m` exactly when some vote row for `m` is theirs. */
  lemma VotersHaveVoteRows(vs: seq<Vote>, m: MovieId)
    ensures forall u :: u in Voters(vs, m) <==> exists j :: 0 <= j < |vs| && vs[j].movieId == m && vs[j].userId == u
  {
    forall u | u in Voters(vs, m) ensures exists j :: 0 <= j < |vs| && vs[j].movieId == m && vs[j].userId == u {
      var v :| v in vs && v.movieId == m && v.userId == u;
      var j :| 0 <= j < |vs| && vs[j] == v;
    }
  }

  /** The ids of the members, in table order, that are not in `voted`. */
  function PendingVoters(us: seq<User>, voted: set<UserId>): (p: seq<UserId>)
    ensures |p| <= |us|
  {
    if us == [] then []
    else PendingVoters(us[..|us| - 1], voted) + (if us[|us| - 1].id !in voted then [us[|us| - 1].id] else [])
  }

  /** The pending members are exactly the members outside `voted`. */
  lemma {:induction false} PendingVotersAreTheOthers(us: seq<User>, voted: set<UserId>)
    ensures forall x :: x in PendingVoters(us, voted) <==> (x !in voted && exists i :: 0 <= i < |us| && us[i].id == x)
  {
    if us != [] {
      var init := us[..|us| - 1];
      PendingVotersAreTheOthers(init, voted);
      assert forall i :: 0 <= i < |init| ==> init[i] == us[i];
      forall x | x !in voted && (exists i :: 0 <= i < |us| && us[i].id == x) ensures x in PendingVoters(us, voted) {
        var i :| 0 <= i < |us| && us[i].id == x;
        if i < |init| {
          assert init[i].id == x;
        }
      }
    }
  }

  /** The vote reminder for one WATCHING movie, if it is due and someone has not voted. */
  function MovieNotices(m: Movie, s: Store, now: int): seq<Notice> {
    var pending := PendingVoters(s.users, Voters(s.votes, m.id));
    if VoteReminderDue(m, s, now) && |pending| > 0 then [Notice(VoteReminder, pending, m.title)] else []
  }

  /** The vote reminders for the WATCHING movies, in their order. */
  function VoteNotices(ws: seq<Movie>, s: Store, now: int): seq<Notice> {
    if ws == [] then [] else VoteNotices(ws[..|ws| - 1], s, now) + MovieNotices(ws[|ws| - 1], s, now)
  }

  /** The number of members a list of notices reaches, counted per notice. */
  function Recipients(ns: seq<Notice>): nat {
    if ns == [] then 0 else Recipients(ns[..|ns| - 1]) + |ns[|ns| - 1].userIds|
  }

  /** The members one WATCHING movie's vote reminder reaches (0 when none goes out). */
  function MovieReminderCount(m: Movie, s: Store, now: int): nat {
    var pending := PendingVoters(s.users, Voters(s.votes, m.id));
    if VoteReminderDue(m, s, now) && |pending| > 0 then |pending| else 0
  }

  /** `voteReminders` as the loop accumulates it. */
  function VoteReminderTotal(ws: seq<Movie>, s: Store, now: int): nat {
    if ws == [] then 0 else VoteReminderTotal(ws[..|ws| - 1], s, now) + MovieReminderCount(ws[|ws| - 1], s, now)
  }

  /** One more movie of the loop adds its own reminder and its own count. */
  lemma LoopStep(ws: seq<Movie>, i: nat, s: Store, now: int)
    requires i < |ws|
    ensures VoteNotices(ws[..i + 1], s, now) == VoteNotices(ws[..i], s, now) + MovieNotices(ws[i], s, now)
    ensures VoteReminderTotal(ws[..i + 1], s, now) == VoteReminderTotal(ws[..i], s, now) + MovieReminderCount(ws[i], s, now)
  {
    assert ws[..i + 1][..i] == ws[..i];
  }

  /**
   * GET. Not authorized: 401 and nothing is sent. Otherwise the vetting
   * reminder (if any) goes out, then one vote reminder per due WATCHING movie
   * with members who have not voted, and the body counts them.
   */
  method CronGet(
    s: Store, secret: string, authorization: Option<string>, secretParam: Option<string>,
    vettingMovie: Option<Movie>, pendingVetting: seq<UserId>, watching: seq<Movie>, now: int)
    returns (reply: Reply<Counts>, sent: seq<Notice>)
    ensures !IsAuthorized(secret, authorization, secretParam) ==>
      reply == Fail(UnauthorizedStatus, UnauthorizedText) && sent == []
    ensures IsAuthorized(secret, authorization, secretParam) ==>
      && reply == Ok(Counts(VettingReminderCount(vettingMovie, pendingVetting), VoteReminderTotal(watching, s, now)))
      && sent == VettingNotices(vettingMovie, pendingVetting) + VoteNotices(watching, s, now)
  {
    if !IsAuthorized(secret, authorization, secretParam) {
      return Fail(UnauthorizedStatus, UnauthorizedText), [];
    }
    var vettingReminders := 0;
    sent := [];
    if vettingMovie.Some? {
      if |pendingVetting| > 0 {
        sent := sent + [Notice(VettingReminder, pendingVetting, vettingMovie.value.title)];
        vettingReminders := |pendingVetting|;
      }
    }
    ghost var vettingSent := sent;
    var voteReminders := 0;
    var allUsersCount := |s.users|;
    for i := 0 to |watching|
      invariant voteReminders == VoteReminderTotal(watching[..i], s, now)
      invariant sent == vettingSent + VoteNotices(watching[..i], s, now)
    {
      var movie := watching[i];
      LoopStep(watching, i, s, now);
      ghost var sentBefore, totalBefore := sent, voteReminders;
      var vettingCount := VettingRoute.ResponseCount(s.responses, movie.id);
      if vettingCount >= allUsersCount {
        var vettingStart := movie.vettingStartDate;
        if !(vettingStart.Some? && vettingStart.value != 0 && vettingStart.value > now - TwoDays) {
          var votedUserIds := Voters(s.votes, movie.id);
          var pendingUsers := PendingVoters(s.users, votedUserIds);
          if |pendingUsers| > 0 {
            sent := sent + [Notice(VoteReminder, pendingUsers, movie.title)];
            voteReminders := voteReminders + |pendingUsers|;
          }
        }
      }
      assert sent == sentBefore + MovieNotices(movie, s, now);
      assert sentBefore + MovieNotices(movie, s, now) == vettingSent + (VoteNotices(watching[..i], s, now) + MovieNotices(movie, s, now));
      assert voteReminders == totalBefore + MovieReminderCount(movie, s, now);
    }
    assert watching[..|watching|] == watching;
    reply := Ok(Counts(vettingReminders, voteReminders));
  }

  // ---------------------------------------------------------------- properties

  /**
   * Every vote reminder is about a due movie of the list and goes to exactly
   * the members without a vote row for it, of whom there is at least one. So
   * a movie whose vetting is incomplete, or that entered vetting less than two
   * days ago, gets none.
   */
  lemma {:induction false} NoticesAreForDueMovies(ws: seq<Movie>, s: Store, now: int)
    ensures forall n :: n in VoteNotices(ws, s, now) ==>
      exists k :: 0 <= k < |ws| && VoteReminderDue(ws[k], s, now) &&
        n == Notice(VoteReminder, PendingVoters(s.users, Voters(s.votes, ws[k].id)), ws[k].title) &&
        n.userIds != []
  {
    if ws != [] {
      var init := ws[..|ws| - 1];
      NoticesAreForDueMovies(init, s, now);
      assert forall k :: 0 <= k < |init| ==> init[k] == ws[k];
    }
  }

  /**
   * The converse: every listed movie that is due and has a member without a
   * vote row gets its reminder, so a missing or 0 start date holds none back.
   */
  lemma {:induction false} DueMoviesAreReminded(ws: seq<Movie>, s: Store, now: int)
    ensures forall k ::
      0 <= k < |ws| && VoteReminderDue(ws[k], s, now) && PendingVoters(s.users, Voters(s.votes, ws[k].id)) != [] ==>
        Notice(VoteReminder, PendingVoters(s.users, Voters(s.votes, ws[k].id)), ws[k].title) in VoteNotices(ws, s, now)
  {
    if ws != [] {
      var init := ws[..|ws| - 1];
      DueMoviesAreReminded(init, s, now);
      assert forall k :: 0 <= k < |init| ==> init[k] == ws[k];
    }
  }

  /** `voteReminders` is the number of members the vote reminders reach. */
  lemma {:induction false} TotalCountsRecipients(ws: seq<Movie>, s: Store, now: int)
    ensures VoteReminderTotal(ws, s, now) == Recipients(VoteNotices(ws, s, now))
  {
    if ws != [] {
      var init := ws[..|ws| - 1];
      TotalCountsRecipients(init, s, now);
      var ns := VoteNotices(init, s, now);
      var more := MovieNotices(ws[|ws| - 1], s, now);
      if more != [] {
        assert (ns + more)[..|ns|] == ns;
      } else {
        assert ns + more == ns;
      }
    }
  }

  /** Each movie reminds at most every member once, so the total is at most members times movies. */
  lemma {:induction false} TotalIsBounded(ws: seq<Movie>, s: Store, now: int)
    ensures VoteReminderTotal(ws, s, now) <= |ws| * |s.users|
  {
    if ws != [] {
      TotalIsBounded(ws[..|ws| - 1], s, now);
      assert (|ws| - 1) * |s.users| + |s.users| == |ws| * |s.users|;
    }
  }
}
