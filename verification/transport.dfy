/**
 * The web-socket transport, reduced to what the endpoints observe: a session is an identity
 * with the query parameter it was opened with; whether it is still open is tracked by the
 * endpoints' states as a set of live sessions.
 */
module Transport {
  import opened Options

  /**
   * A `javax.websocket.Session`. `id` tells two connections apart; `param` is the first value
   * of the identifying query parameter (`openId` on `/match`, `deviceId` on `/game`), `None`
   * when the parameter is missing.
   */
  datatype Session = Session(id: nat, param: Option<string>)
}
