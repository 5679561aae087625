/** What one call to the endpoint carries in, and what it reports back. */
module Messages {
  import opened Wrappers

  /**
   * The identifiers written into the "error" field of every reply: "none", "missing_data",
   * "db_login_error", "invalid_json", "invalid_nonce", "server_missing_nonce",
   * "invalid_nonce_or_hash", "missing_score", "missing_username", "invalid_command".
   */
  datatype ErrorCode =
    | NoError
    | MissingData
    | DbLoginError
    | InvalidJson
    | InvalidNonce
    | ServerMissingNonce
    | InvalidNonceOrHash
    | MissingScore
    | MissingUsername
    | InvalidCommand

  /**
   * One POST request, as far as the endpoint looks at it: the `command` and `data`
   * request parameters, the raw request body, the caller's address and the `CNONCE`
   * and `HASH` headers.
   */
  datatype Request = Request(
    command: Option<string>,
    data: Option<string>,
    body: string,
    ip: string,
    cnonce: Option<string>,
    hash: Option<string>)

  /** Outcome of the nonce check that guards the protected commands. */
  datatype Verdict = Pass | Fail(error: ErrorCode)

  /** One row of the `highscores` table. */
  datatype Row = Row(username: string, score: int)

  /** The "response" part of a reply. */
  datatype Payload =
    | Empty
    | NonceIssued(nonce: string)
    | Page(rows: seq<Row>, size: nat)

  datatype Response = Response(error: ErrorCode, payload: Payload)
}
