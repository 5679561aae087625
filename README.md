# High-score endpoint with single-use nonces — a Dafny model

`highscore.php` is a POST endpoint a game client calls to read and submit high
scores. Requests name a `command` and carry a JSON `data` payload. Two of the
three commands are protected by a replay check:

- the client first calls `get_nonce`, which stores a hashed random nonce for its
  network address in the `nonces` table;
- a protected call (`get_scores`, `add_score`) sends a `CNONCE` header and a `HASH`
  header. `verify_nonce` deletes the stored nonce and then accepts only if
  `HASH = sha256(nonce ++ CNONCE ++ raw body ++ secret)`.

Scores live in the `highscores` table, one row per username. Submissions keep the
larger of the old and the new score.

This project models that script as a state machine over the two tables:

| module | file | what it holds |
|---|---|---|
| `Wrappers` | wrappers.dfy | `Option` |
| `PhpValues` | php_values.dfy | decoded JSON scalars, `isset`, PHP's `(int)` cast and string conversion |
| `Messages` | messages.dfy | the request, the error identifiers, the reply |
| `NonceAuth` | nonce_auth.dfy | `verify_nonce`: signature, fetch-and-delete, verdict |
| `ScoreLedger` | score_ledger.dfy | username shortening, keep-the-maximum upsert, page size, the ranked page |
| `Dispatch` | dispatch.dfy | one call as a function `Handle` on the two tables, and the protocol lemmas |
| `Server` | server.dfy | class `ScoreServer` with the tables as `map` fields and one method per branch |

`Server.ScoreServer.HandleRequest` runs the script imperatively. Its
postcondition ties the reply and the new tables to `Dispatch.Handle`. The
protocol properties are proved as lemmas about `Handle`: nonces are single use,
re-issuing a nonce replaces the old one, scores never decrease, and the errors
come in a fixed order.

SHA-256 and `json_decode` are parameters of the class (`sha256`, `jsonDecode`).
`random_bytes(32)` is the `entropy` argument of a call. The database connection
succeeding or failing is the `dbUp` argument.

Three places where the script's own text says one thing and its code does another.
The model follows the code in the first two; the third is an interleaving the model
does not capture:

- **Username shortening.** The comment at highscore.php:191 says usernames are
  kept under 24 characters. The code at highscore.php:194 stores
  `substr($username, 24)`, which is the part AFTER the first 24 characters.
  `ScoreLedger.StoredNameFitsIff` shows what follows: the stored name fits in 24
  characters only when the submitted one fits in 48.
- **Page offset.** `get_scores` reads `score_offset` into `$score_start`
  (highscore.php:148). The query binds `$score_offset` instead (highscore.php:159),
  which stays 0 from highscore.php:143. Every page therefore starts at the top.
  `Dispatch.OffsetIgnored` shows that the `score_offset` field changes nothing.
- **Fetch-and-delete.** The comment at highscore.php:67 calls each nonce a one-use
  key. But the read (highscore.php:56-59) and the delete (highscore.php:68-69) are
  two separate statements. Two requests from one address can both read the nonce
  before either deletes it, and so use it twice. The model runs each call as one
  step and does not capture that interleaving. `Dispatch.NonceIsSingleUse` and the
  other single-use lemmas hold only for calls handled one at a time (see the
  concurrency line under "Left out").

## Model

| member | source | states |
|---|---|---|
| `PhpValues.LookupUpdate` | highscore.php:181-189 | `isset` over a stored field: after storing a value under a key, that key is set exactly when the value is not null, and every other key reads as before |
| `PhpValues.IntCast` | highscore.php:151 | PHP's `(int)`: an integer gives itself, null 0, booleans 1 and 0; a digit string gives its decimal value, with a leading minus its negation; a string not starting with a blank, sign or digit gives 0 |
| `PhpValues.IntCastOfDigitPrefix` | highscore.php:151 | PHP's `(int)` of a string keeps the leading run of digits after an optional `-` or `+` and ignores what follows (`"12abc"` gives 12) |
| `PhpValues.IntCastSkipsLeadingSpace` | highscore.php:151 | PHP's `(int)` of a string ignores leading white space |
| `PhpValues.IntCastOfStringCast` | highscore.php:151 | the `(int)` cast of an integer's decimal string is that integer again (the cast and the string conversion are inverse on integers) |
| `NonceAuth.SignatureSeparates` | highscore.php:74 | the expected hash over nonce ++ CNONCE ++ body ++ secret: with a collision-free hash, equal signatures mean equal nonces (same CNONCE and body) and equal bodies (same nonce and CNONCE) |
| `NonceAuth.CheckNonce` | highscore.php:48-81 | accepted exactly when a CNONCE was sent, a nonce is stored for the address and HASH equals sha256(nonce ++ CNONCE ++ body ++ secret); otherwise `invalid_nonce`, `server_missing_nonce`, `invalid_nonce_or_hash` in that order; no CNONCE leaves the table alone; with one the caller's nonce is gone whatever the outcome; other addresses are untouched |
| `NonceAuth.SecondCheckFindsNoNonce` | highscore.php:67-69 | two checks in a row for one address, both with a CNONCE: the second fails with `server_missing_nonce` |
| `NonceAuth.StaleSignatureRefused` | highscore.php:72-77 | with a collision-free hash, a signature over any other nonce than the stored one is refused with `invalid_nonce_or_hash` |
| `ScoreLedger.ShortenUsername` | highscore.php:191-194 | the stored name is a suffix of the submitted one; unchanged up to 24 characters; 24 characters shorter beyond that |
| `ScoreLedger.StoredNameFitsIff` | highscore.php:191-194 | the stored name has at most 24 characters exactly when the submitted one has at most 48 |
| `ScoreLedger.Upsert` | highscore.php:198 | adds the name if new with the submitted score; otherwise the larger of old and new; every other row unchanged |
| `ScoreLedger.UpsertNeverLowers` | highscore.php:198 | an upsert keeps every name and lowers no score |
| `ScoreLedger.PageSize` | highscore.php:143-151 | the page size is at least 1: 10 without `score_number`, else its `(int)` value raised to 1 |
| `ScoreLedger.SelectTop` | highscore.php:154-163 | the rows answer `ORDER BY score DESC LIMIT n OFFSET 0`: min(n, table size) distinct rows of the table, scores non-increasing, no left-out user above a listed one |
| `Dispatch.Handle` | highscore.php:35-215 | one call never lowers a score, and only a successful `add_score` writes the score table; the nonce table changes only at the caller's address; a failed call answers nothing |
| `Dispatch.PrechecksInOrder` | highscore.php:35-111 | missing command, then missing data (both `missing_data`), then `db_login_error`, then `invalid_json`; each leaves both tables unchanged |
| `Dispatch.UnknownCommandChangesNothing` | highscore.php:210-212 | any other command yields `invalid_command` and changes no table |
| `Dispatch.IssueNonceReplaces` | highscore.php:117-132 | `get_nonce` answers sha256(random bytes) and stores it for the caller, replacing an earlier nonce; nothing else changes |
| `Dispatch.MissingCnonceRefused` | highscore.php:50-53 | a protected command without CNONCE yields `invalid_nonce` and changes no table |
| `Dispatch.MissingServerNonceRefused` | highscore.php:55-65 | a protected command with no stored nonce yields `server_missing_nonce` and changes no table |
| `Dispatch.StoredNonceConsumed` | highscore.php:67-80 | once a stored nonce is found it is deleted, whatever the outcome; the call fails with `invalid_nonce_or_hash` exactly when HASH is not the expected signature |
| `Dispatch.NonceIsSingleUse` | highscore.php:67-69 | after a protected call with a CNONCE, the next protected call from that address without a new `get_nonce` fails with `server_missing_nonce` and changes nothing |
| `Dispatch.ReplayRefused` | highscore.php:136-140 | a successful protected call replayed verbatim fails with `server_missing_nonce` |
| `Dispatch.StaleNonceRefused` | highscore.php:119-127 | after two `get_nonce` calls with different random bytes, a call signed over the first nonce is refused (collision-free hash assumed) |
| `Dispatch.AddScoreOutcome` | highscore.php:174-207 | after a passed check: `missing_score` before `missing_username`, neither touching scores; otherwise the shortened name's score becomes max(old, new), or the new score for a new name, and no other row changes |
| `Dispatch.OffsetIgnored` | highscore.php:142-159 | changing or adding `score_offset` in the payload changes no outcome of any call |
| `Dispatch.ScoresNeverDecrease` | highscore.php:198 | over any sequence of calls no stored score is removed or lowered |
| `Server.ScoreServer.IssueNonce` | highscore.php:117-132 | returns sha256 of the random bytes and upserts it as the caller's nonce |
| `Server.ScoreServer.VerifyNonce` | highscore.php:48-81 | verdict and new nonce table are those of `CheckNonce` on the old table |
| `Server.ScoreServer.GetScores` | highscore.php:136-171 | the nonce check's error on failure; otherwise a top page of `PageSize` rows with `size` equal to the row count |
| `Server.ScoreServer.AddScore` | highscore.php:174-207 | the nonce check's error, then `missing_score`, then `missing_username`; on success the table becomes the upsert of the shortened name and cast score |
| `Server.ScoreServer.HandleRequest` | highscore.php:35-215 | the reply's error, the new tables and the payload are those `Dispatch.Handle` prescribes |

## Left out

- CORS preflight and the POST-only filter (highscore.php:3-20): transport, not part of the tables' behaviour.
- The JSON text `print_response` writes (highscore.php:22-32): replies are modelled as an error code plus a payload.
- The PDO connection and its credentials (highscore.php:84-102): a failed login is the `dbUp = false` input.
- `json_decode` (highscore.php:105) is a parameter; decoded field values are scalars only. Floats, nested arrays and nested objects as field values are not modelled.
- SHA-256 and `random_bytes` are parameters. Tamper resistance is a cryptographic assumption and is not proved; `StaleNonceRefused` states its one consequence under an explicit collision-freedom hypothesis.
- `NonceAuth.CheckNonce`: PHP's loose `!=` at highscore.php:74 is modelled as string equality. PHP compares two numeric-looking hex strings numerically; that case is not modelled. A missing `HASH` header counts as a mismatch.
- `PhpValues.IntCast`: models leading white space, sign and digits. Exponent and decimal forms (`"1e3"`) and 64-bit saturation are not modelled.
- `ScoreLedger.Upsert`: the score is stored as PHP's `(int)` of the submitted value. MySQL's own conversion of the bound string (and its strict-mode errors) is not modelled.
- Key equality: usernames and addresses are compared as exact strings. MySQL matches `ON DUPLICATE KEY` (highscore.php:123, 198) by the unique index's collation, which the schema decides; under a case-insensitive or PAD SPACE utf8mb4 collation "Alice" and "alice" are one row in MySQL but two keys here. The model assumes a binary (exact) collation.
- Integer width: `Scalar.Int` is unbounded. `json_decode` turns integers outside 64 bits into floats, which `strlen`/`substr` then see as float strings such as "1.0E+24". The model assumes every JSON integer fits in 64 bits.
- Strings are sequences of characters; PHP's `strlen` counts bytes, so multi-byte UTF-8 usernames are not modelled.
- Concurrency and SQL atomicity: the SELECT and DELETE at highscore.php:56-69 are separate statements, so two concurrent requests from one address can both pass the lookup and use one nonce twice. Each call is one sequential step here, so single use is proved only for calls handled one at a time.
- The order among equal scores in `ORDER BY score DESC` is unspecified by SQL; `SelectTop` requires only non-increasing order. Columns other than username and score are not modelled.
