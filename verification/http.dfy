/** What a gin handler hands back to the client: the JSON writes it makes, in
    order, the cookie it sets, or a redirect. gin keeps the status of the first
    write, and a panic is answered with 500 by the recovery middleware. */
module Http {
  const OK: int := 200
  const Created: int := 201
  const TemporaryRedirect: int := 307
  const BadRequest: int := 400
  const Unauthorized: int := 401
  const NotFound: int := 404
  const InternalServerError: int := 500

  /** The session cookie (named `token`): left alone, set to a value with a max-age
      in seconds, or deleted (max-age -1). */
  datatype Cookie = Untouched | SetCookie(value: string, maxAge: int) | Deleted

  /** One `context.JSON(status, body)` call. */
  datatype Write<B> = Write(status: int, body: B)

  /** The status the client sees: the first write's, or 200 when the handler
      wrote nothing. */
  function StatusOf<B>(writes: seq<Write<B>>): int {
    if writes == [] then OK else writes[0].status
  }

  /** Once a handler has written, nothing it writes later changes the status
      the client sees; a handler that writes nothing answers 200. */
  lemma FirstStatusWins<B>(writes: seq<Write<B>>, more: seq<Write<B>>)
    ensures writes != [] ==> StatusOf(writes + more) == StatusOf(writes) == writes[0].status
    ensures StatusOf<B>([]) == OK
  {
    if writes != [] {
      assert (writes + more)[0] == writes[0];
    }
  }
}
