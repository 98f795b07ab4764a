/** What the REST handlers share: the status codes they answer with, the shape of a reply,
    and the claims of the verified external-identity token they read the caller from. */
module Http {
  import opened Optional

  /** The standard HTTP status codes the handlers use. */
  const OK: nat := 200
  const CREATED: nat := 201
  const BAD_REQUEST: nat := 400
  const UNAUTHORIZED: nat := 401
  const NOT_FOUND: nat := 404
  const INTERNAL_SERVER_ERROR: nat := 500

  /** A JSON body: a payload, `{ error }` or `{ message }`. */
  datatype Body<T> = Json(value: T) | Error(error: string) | Message(message: string)

  /** `res.status(code).json(body)` */
  datatype Reply<T> = Reply(code: nat, body: Body<T>)

  /** The token payload the middleware attaches as `req.auth.payload`; JWT verification itself
      is outside the model. */
  datatype Claims = Claims(sub: Option<string>, nickname: Option<string>)

  /** JavaScript truthiness of an optional string: present and non-empty. */
  predicate Truthy(s: Option<string>) {
    s.Some? && s.value != ""
  }

  /** The subject the handlers act for; `None` is the `!auth0Payload || !auth0Payload.sub` case. */
  function Subject(auth: Option<Claims>): (r: Option<string>)
    ensures r.Some? <==> auth.Some? && Truthy(auth.value.sub)
    ensures r.Some? ==> r.value == auth.value.sub.value && r.value != ""
  {
    if auth.Some? && Truthy(auth.value.sub) then auth.value.sub else None
  }
}
