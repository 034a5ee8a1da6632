/**
 * The push-subscription endpoint (`src/app/api/push/subscribe/route.ts`):
 * POST saves a browser subscription, keyed by member and endpoint, and DELETE
 * removes it. A JSON field that is missing is the empty string here; both are
 * refused.
 */
module PushSubscribe {
  import opened Wrappers
  import opened Queries
  import opened Schema
  import opened Http

  const InvalidSubscription := "Invalid subscription"
  const EndpointRequired := "endpoint required"

  predicate IsSubscriptionOf(x: Subscription, u: UserId, endpoint: string) {
    x.userId == u && x.endpoint == endpoint
  }

  /** The subscription row of member `u` for `endpoint`, if any. */
  function FindSubscription(xs: seq<Subscription>, u: UserId, endpoint: string): Option<nat> {
    FindFirst(xs, x => IsSubscriptionOf(x, u, endpoint))
  }

  /** POST as a function of the tables before it. */
  function SubscribeStep(s: Store, session: Session, endpoint: string, p256dh: string, auth: string): Step<Reply<()>> {
    if session.None? then Step(s, Fail(UnauthorizedStatus, UnauthorizedText))
    else if endpoint == "" || p256dh == "" || auth == "" then Step(s, Fail(BadRequestStatus, InvalidSubscription))
    else
      var xs := s.subscriptions;
      match FindSubscription(xs, session.value, endpoint)
      case Some(i) => Step(s.(subscriptions := xs[i := xs[i].(p256dh := p256dh, auth := auth)]), Ok(()))
      case None => Step(s.(subscriptions := xs + [Subscription(session.value, endpoint, p256dh, auth)]), Ok(()))
  }

  method Subscribe(db: Database, session: Session, endpoint: string, p256dh: string, auth: string)
    returns (r: Reply<()>)
    requires db.Valid()
    modifies db`subscriptions
    ensures db.Valid()
    ensures Step(db.Tables(), r) == SubscribeStep(old(db.Tables()), session, endpoint, p256dh, auth)
  {
    if session.None? {
      return Fail(UnauthorizedStatus, UnauthorizedText);
    }
    if endpoint == "" || p256dh == "" || auth == "" {
      return Fail(BadRequestStatus, InvalidSubscription);
    }
    var existing := FindSubscription(db.subscriptions, session.value, endpoint);
    if existing.Some? {
      var i := existing.value;
      db.subscriptions := db.subscriptions[i := db.subscriptions[i].(p256dh := p256dh, auth := auth)];
    } else {
      db.subscriptions := db.subscriptions + [Subscription(session.value, endpoint, p256dh, auth)];
    }
    r := Ok(());
  }

  predicate IsOtherSubscription(x: Subscription, u: UserId, endpoint: string) {
    !IsSubscriptionOf(x, u, endpoint)
  }

  /** The rows left after `delete where userId = u and endpoint = e`. */
  function Without(xs: seq<Subscription>, u: UserId, endpoint: string): seq<Subscription> {
    Filter(xs, x => IsOtherSubscription(x, u, endpoint))
  }

  /** DELETE as a function of the tables before it. */
  function UnsubscribeStep(s: Store, session: Session, endpoint: string): Step<Reply<()>> {
    if session.None? then Step(s, Fail(UnauthorizedStatus, UnauthorizedText))
    else if endpoint == "" then Step(s, Fail(BadRequestStatus, EndpointRequired))
    else Step(s.(subscriptions := Without(s.subscriptions, session.value, endpoint)), Ok(()))
  }

  method Unsubscribe(db: Database, session: Session, endpoint: string) returns (r: Reply<()>)
    requires db.Valid()
    modifies db`subscriptions
    ensures db.Valid()
    ensures Step(db.Tables(), r) == UnsubscribeStep(old(db.Tables()), session, endpoint)
  {
    if session.None? {
      return Fail(UnauthorizedStatus, UnauthorizedText);
    }
    if endpoint == "" {
      return Fail(BadRequestStatus, EndpointRequired);
    }
    db.subscriptions := Without(db.subscriptions, session.value, endpoint);
    r := Ok(());
  }

  // ---------------------------------------------------------------- properties

  /** At most one subscription row per (member, endpoint). */
  ghost predicate OneSubscriptionPerEndpoint(xs: seq<Subscription>) {
    forall i, j :: 0 <= i < j < |xs| ==> xs[i].userId != xs[j].userId || xs[i].endpoint != xs[j].endpoint
  }

  /**
   * POST without a session, or with a missing endpoint or key, fails and
   * changes nothing. When the member already has a row for the endpoint its
   * keys are replaced and no row is added; otherwise exactly one row is
   * appended. Either way the member ends up with a row for the endpoint holding
   * the new keys, and no other row changes.
   */
  lemma SubscribeContract(s: Store, session: Session, endpoint: string, p256dh: string, auth: string)
    ensures var st := SubscribeStep(s, session, endpoint, p256dh, auth);
      session.None? ==> st == Step(s, Fail(UnauthorizedStatus, UnauthorizedText))
    ensures var st := SubscribeStep(s, session, endpoint, p256dh, auth);
      session.Some? && (endpoint == "" || p256dh == "" || auth == "") ==>
        st == Step(s, Fail(BadRequestStatus, InvalidSubscription))
    ensures var st := SubscribeStep(s, session, endpoint, p256dh, auth);
      session.Some? && endpoint != "" && p256dh != "" && auth != "" ==>
        var xs, ys := s.subscriptions, st.after.subscriptions;
        var u := session.value;
        && st.result == Ok(())
        && st.after == s.(subscriptions := ys)
        && Subscription(u, endpoint, p256dh, auth) in ys
        && ((exists i :: 0 <= i < |xs| && IsSubscriptionOf(xs[i], u, endpoint)) ==> |ys| == |xs|)
        && ((forall i :: 0 <= i < |xs| ==> !IsSubscriptionOf(xs[i], u, endpoint)) ==>
              ys == xs + [Subscription(u, endpoint, p256dh, auth)])
        && (forall i :: 0 <= i < |xs| && !IsSubscriptionOf(xs[i], u, endpoint) ==> ys[i] == xs[i])
  {
    if session.Some? && endpoint != "" && p256dh != "" && auth != "" {
      var xs := s.subscriptions;
      match FindSubscription(xs, session.value, endpoint)
      case Some(i) =>
        var ys := SubscribeStep(s, session, endpoint, p256dh, auth).after.subscriptions;
        assert ys[i] == Subscription(session.value, endpoint, p256dh, auth);
      case None =>
        var ys := SubscribeStep(s, session, endpoint, p256dh, auth).after.subscriptions;
        assert ys[|xs|] == Subscription(session.value, endpoint, p256dh, auth);
    }
  }

  /** POST keeps at most one subscription per (member, endpoint). */
  lemma SubscribeKeepsOnePerEndpoint(s: Store, session: Session, endpoint: string, p256dh: string, auth: string)
    requires OneSubscriptionPerEndpoint(s.subscriptions)
    ensures OneSubscriptionPerEndpoint(SubscribeStep(s, session, endpoint, p256dh, auth).after.subscriptions)
  {
    var xs := s.subscriptions;
    var ys := SubscribeStep(s, session, endpoint, p256dh, auth).after.subscriptions;
    if ys != xs {
      assert forall i :: 0 <= i < |xs| ==> ys[i].userId == xs[i].userId && ys[i].endpoint == xs[i].endpoint;
    }
  }

  /**
   * DELETE without a session or an endpoint fails and changes nothing;
   * otherwise it removes every row of this member for the endpoint and keeps
   * every other row.
   */
  lemma UnsubscribeContract(s: Store, session: Session, endpoint: string)
    ensures var st := UnsubscribeStep(s, session, endpoint);
      session.None? ==> st == Step(s, Fail(UnauthorizedStatus, UnauthorizedText))
    ensures var st := UnsubscribeStep(s, session, endpoint);
      session.Some? && endpoint == "" ==> st == Step(s, Fail(BadRequestStatus, EndpointRequired))
    ensures var st := UnsubscribeStep(s, session, endpoint);
      session.Some? && endpoint != "" ==>
        var xs, ys := s.subscriptions, st.after.subscriptions;
        var u := session.value;
        && st.result == Ok(())
        && st.after == s.(subscriptions := ys)
        && (forall x :: x in ys ==> !IsSubscriptionOf(x, u, endpoint))
        && (forall x :: x in xs && !IsSubscriptionOf(x, u, endpoint) ==> x in ys)
        && (forall x :: x in ys ==> x in xs)
        && |ys| == Count(xs, x => IsOtherSubscription(x, u, endpoint))
  {
  }
}
