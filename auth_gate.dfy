/**
 * The `requireAuth` middleware: reads the `Authorization` header, insists on
 * the `"Bearer "` prefix, verifies the token, then either attaches the payload
 * as `req.user` and calls `next`, or answers 401.
 */
module AuthGate {
  import opened Wrappers
  import Text
  import opened Credentials

  const BearerPrefix: string := "Bearer "

  /** `auth?.startsWith("Bearer ")`. */
  predicate HasBearerPrefix(header: Option<string>)
  {
    header.Some? && BearerPrefix <= header.value
  }

  /** `auth.split(" ")[1]`: the text between the first and the second space. */
  function TokenOf(header: string): (token: string)
    requires BearerPrefix <= header
    ensures ' ' !in token
  {
    var parts := Text.Split(header, ' ');
    assert |parts| >= 2 by {
      Text.SplitAtSeparator("Bearer", header[7..], ' ');
      assert header == "Bearer" + [' '] + header[7..];
    }
    parts[1]
  }

  /** The header a client holding `token` sends is read back as that token. */
  lemma TokenOfBearer(token: string)
    requires ' ' !in token
    ensures TokenOf(BearerPrefix + token) == token
  {
    var header := BearerPrefix + token;
    assert header == "Bearer" + [' '] + token;
    Text.SplitAtSeparator("Bearer", token, ' ');
    Text.SplitWithoutSeparator(token, ' ');
  }

  /** Only the second space-separated field is the token: anything after a further space is ignored. */
  lemma TokenOfIgnoresTail(token: string, tail: string)
    requires ' ' !in token
    ensures TokenOf(BearerPrefix + token + " " + tail) == token
  {
    var header := BearerPrefix + token + " " + tail;
    assert header == "Bearer" + [' '] + (token + [' '] + tail);
    Text.SplitAtSeparator("Bearer", token + [' '] + tail, ' ');
    Text.SplitAtSeparator(token, tail, ' ');
  }

  datatype Reply = Reply(status: int, error: string)

  /** The part of the request and response the middleware touches. */
  class Exchange {
    var user: Option<Claims>
    var nextCalls: nat
    var response: Option<Reply>

    constructor ()
      ensures user == None && nextCalls == 0 && response == None
    {
      user, nextCalls, response := None, 0, None;
    }
  }

  /**
   * `requireAuth(req, res, next)` with `jwt.verify` (and its secret) as
   * `verify`: it carries out the decision `Gate` makes, answering 401 with
   * the gate's message or setting `req.user` and calling `next` once.
   */
  method RequireAuth(ex: Exchange, header: Option<string>, verify: string -> Option<Claims>)
    modifies ex
    ensures Gate(header, verify).Err? ==>
      ex.response == Some(Reply(401, Gate(header, verify).error))
      && ex.user == old(ex.user) && ex.nextCalls == old(ex.nextCalls)
    ensures Gate(header, verify).Ok? ==>
      ex.user == Some(Gate(header, verify).value) && ex.nextCalls == old(ex.nextCalls) + 1
      && ex.response == old(ex.response)
  {
    if !HasBearerPrefix(header) {
      ex.response := Some(Reply(401, "No token"));
      return;
    }
    var token := TokenOf(header.value);
    var payload := verify(token);
    if payload.None? {
      ex.response := Some(Reply(401, "Invalid token"));
      return;
    }
    ex.user := payload;
    ex.nextCalls := ex.nextCalls + 1;
  }

  /**
   * The outcome of the gate as a value: `Err(message)` for a 401 with that
   * message, `Ok(claims)` when `next` runs with `req.user == claims`.
   */
  function Gate(header: Option<string>, verify: string -> Option<Claims>): (r: Result<Claims, string>)
    ensures r == Err("No token") <==> !HasBearerPrefix(header)
    ensures r == Err("Invalid token") <==> HasBearerPrefix(header) && verify(TokenOf(header.value)).None?
    ensures r.Ok? <==> HasBearerPrefix(header) && verify(TokenOf(header.value)).Some?
    ensures r.Ok? ==> verify(TokenOf(header.value)) == Some(r.value)
  {
    if !HasBearerPrefix(header) then Err("No token")
    else match verify(TokenOf(header.value))
      case None => Err("Invalid token")
      case Some(c) => Ok(c)
  }

  /** A token the server signed, sent as `Bearer <token>`, passes with exactly its claims. */
  lemma SignedTokenPasses(c: Claims, sign: Claims -> string, verify: string -> Option<Claims>)
    requires Sound(sign, verify)
    ensures Gate(Some(BearerPrefix + sign(c)), verify) == Ok(c)
  {
    TokenOfBearer(sign(c));
  }

  /**
   * The gate reads only the header: a request whose header lacks the prefix
   * fails whatever cookie it carries. The gate takes no cookie input at all,
   * so this holds by construction; the lemma records that design choice.
   */
  lemma CookieIgnored(verify: string -> Option<Claims>)
    ensures Gate(None, verify) == Err("No token")
  {
  }
}
