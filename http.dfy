/**
 * What the route handlers answer, who is asking, and the lookup of the
 * ACTIVE movie that the route version of the lifecycle shares.
 */
module Http {
  import opened Wrappers
  import opened Queries
  import opened Schema

  /** The signed-in member, if the request carries a valid session. */
  type Session = Option<UserId>

  /** `NextResponse.json(body)`, or `NextResponse.json({ error }, { status })`. */
  datatype Reply<T> = Ok(body: T) | Fail(status: int, error: string)

  const UnauthorizedStatus := 401
  const UnauthorizedText := "Unauthorized"
  const BadRequestStatus := 400

  predicate IsActive(m: Movie) {
    m.status == Active
  }

  /** `select from movies where status = 'ACTIVE' limit 1`, read in table order. */
  function FirstActive(ms: seq<Movie>): (r: Option<MovieId>)
    ensures r.Some? ==> r.value < |ms| && ms[r.value].status == Active
    ensures r.Some? ==> forall j :: 0 <= j < r.value ==> ms[j].status != Active
    ensures r.None? <==> forall i :: 0 <= i < |ms| ==> ms[i].status != Active
  {
    FindFirst(ms, IsActive)
  }
}
