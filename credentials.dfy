/**
 * Session tokens and password digests are produced by libraries outside the
 * model; the model passes them around as functions and assumes of the token
 * functions only what `Sound` states.
 */
module Credentials {
  import opened Wrappers

  /** The payload a session token carries: `{ id, role }`. */
  datatype Claims = Claims(id: string, role: string)

  /**
   * Verification inverts signing, and a signed token holds no space (a
   * compact JWT is three base64url parts joined by dots).
   */
  ghost predicate Sound(sign: Claims -> string, verify: string -> Option<Claims>)
  {
    forall c :: verify(sign(c)) == Some(c) && ' ' !in sign(c)
  }
}
