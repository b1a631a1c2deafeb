/** The Redis session store: account id -> session token, shared by every request.
    Redis is reached through one handle; the model treats it as a single sequential map. */
module SessionStore {
  import opened Wrappers
  import opened Common

  /** How a Redis command can fail for its caller. */
  datatype RedisError =
    | Nil          // GET of a key with no value: the reply cannot be read as a `String`
    | Unreachable  // the connection or the protocol failed

  /** The contents of the store and whether it can be reached at all. */
  datatype Store = Store(sessions: map<Int32, string>, reachable: bool)
  {
    /** `GET account_id`, read as a `String`. */
    function Get(key: Int32): (r: Result<string, RedisError>)
      ensures r.Ok? <==> reachable && key in sessions
      ensures r.Ok? ==> r.value == sessions[key]
    {
      if !reachable then Err(Unreachable)
      else if key in sessions then Ok(sessions[key])
      else Err(Nil)
    }
  }

  /** The half of the application state that holds the Redis handle. */
  class AppState {
    var redis: Store

    constructor (initial: Store)
      ensures redis == initial
    {
      redis := initial;
    }

    /** `SET account_id token`: overwrites any earlier token of that account (last write wins). */
    method Set(key: Int32, token: string) returns (r: Result<(), RedisError>)
      modifies this
      ensures r.Ok? <==> old(redis).reachable
      ensures r.Err? ==> r.error == Unreachable && redis == old(redis)
      ensures r.Ok? ==> redis == old(redis).(sessions := old(redis).sessions[key := token])
    {
      if !redis.reachable {
        return Err(Unreachable);
      }
      redis := redis.(sessions := redis.sessions[key := token]);
      return Ok(());
    }
  }
}
