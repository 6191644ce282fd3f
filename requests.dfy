/** The shapes that cross the `POST /vm` boundary: what a caller asks for
    and what it gets back. The JSON wire format itself is not modelled. */
module Requests {

  /** One `"token": "count"` pair of the request body, the count already
      converted to a number. The token is a pool name or an alias. */
  datatype PoolRequest = PoolRequest(token: string, count: nat)

  /** A request entry after alias resolution: a configured pool name. */
  datatype Claim = Claim(pool: string, count: nat)

  /** One `pool: { hostname: ... }` entry of a successful answer. It is keyed
      by the canonical pool name, also when the caller used an alias. */
  datatype Entry = Entry(pool: string, hostnames: seq<string>)

  /** Why a request was refused. */
  datatype FailReason =
    | UnknownPool   // some token is neither a pool name nor an alias of one
    | Shortfall     // some pool has fewer ready machines than requested

  /** `{ok: true, ...entries}` or `{ok: false}`. */
  datatype Response = Success(entries: seq<Entry>) | Failure(reason: FailReason)

  /** The `ok` field of the answer. */
  function Ok(resp: Response): bool
  {
    resp.Success?
  }

  /** The HTTP status of the answer: 200 on success, 404 on any refusal.
      Which requests succeed is stated by `Store.Checkout`. */
  function Status(resp: Response): (code: int)
    ensures code == 200 <==> Ok(resp)
    ensures code == 404 <==> !Ok(resp)
  {
    if resp.Success? then 200 else 404
  }
}
