/**
 * The documents kept in the three MongoDB collections of the OAuth 2.0
 * credential store (clients, codes, tokens), the wrappers for lookups that
 * find nothing or raise, and the time arithmetic.
 *
 * Timestamps are whole seconds on one clock: every operation that reads
 * `datetime.now()` takes the current time as a parameter `now`.
 */
module Records {

  /** What `find_one` returns: a document, or None when nothing matches. */
  datatype Option<+T> = None | Some(value: T)

  /** A Python call that either returns a value or raises TypeError
      (subscripting None, comparing None with a datetime, timedelta(0, None)). */
  datatype Result<+T> = Ok(value: T) | TypeError

  type Time = int

  /** `user_id` is opaque to the store (a MongoDB ObjectId for codes). */
  type UserId = string

  /** A document of `clients`, stored under its `_id`, the client id. */
  datatype Client = Client(client_secret: string, redirect_uri: string, client_name: string)

  /** A document of `codes`, stored under its `_id`, the authorization code. */
  datatype Code = Code(client_id: string, user_id: UserId, expires: Time)

  /** A document of `tokens`. Its `_id`, the field `id`, is the refresh token;
      the document has no other key holding it, and `find_one` hands the `_id`
      back with the rest. */
  datatype Token = Token(
    id: string,
    client_id: string,
    user_id: UserId,
    access_token: string,
    expires_access: Time,
    expires_refresh: Option<Time>,
    scope: Option<string>)

  /** The triple `add_access_token` returns. */
  datatype Issued = Issued(access_token: string, refresh_token: string, expires_access: Time)

  /** `add_seconds_to_date`: the instant `seconds` after `date`. */
  function AddSecondsToDate(date: Time, seconds: int): (r: Time)
    ensures r - date == seconds
    ensures seconds > 0 ==> date < r
  {
    date + seconds
  }
}
