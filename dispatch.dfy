/**
 * One call to the endpoint as a step on the two tables: the pre-checks on the
 * request, then the command switch (`get_nonce`, `get_scores`, `add_score`, anything
 * else), and what each step promises about the nonce and score tables.
 */
module Dispatch {
  import opened Wrappers
  import opened PhpValues
  import opened Messages
  import opened NonceAuth
  import opened ScoreLedger

  /** The persistent state: `nonces` (address to nonce) and `highscores` (username to score). */
  datatype Tables = Tables(nonces: map<string, string>, scores: map<string, int>)

  /** What the reply carries besides its error code. */
  datatype Answer =
    | NoAnswer
    | NonceAnswer(nonce: string)
    | PageAnswer(limit: nat)  // a ranked page of at most `limit` rows of the score table

  /** Error code, new tables and answer of one call. */
  datatype Effect = Effect(error: ErrorCode, after: Tables, answer: Answer)

  /** One call: the request, whether the database login succeeds, and the 32 random bytes. */
  datatype Input = Input(req: Request, dbUp: bool, entropy: string)

  predicate IsProtected(command: string)
  {
    command == "get_scores" || command == "add_score"
  }

  /** The request gets past the pre-checks and reaches the command switch. */
  predicate ReachesSwitch(input: Input, decode: string -> Option<Document>)
  {
    input.req.command.Some? && input.req.data.Some? && input.dbUp && decode(input.req.data.value).Some?
  }

  /** The request reaches `verify_nonce`. */
  predicate ReachesVerification(input: Input, decode: string -> Option<Document>)
  {
    ReachesSwitch(input, decode) && IsProtected(input.req.command.value)
  }

  /** What one call does, given SHA-256 and `json_decode` (None when it yields null). */
  function Handle(s: Tables, input: Input, sha256: string -> string, decode: string -> Option<Document>): (e: Effect)
    // only a successful add_score writes the score table, and it never lowers a score
    ensures NoScoreLowered(s.scores, e.after.scores)
    ensures e.after.scores != s.scores ==> e.error == NoError && input.req.command == Some("add_score")
    // the nonce table changes at the caller's address only
    ensures e.after.nonces.Keys <= s.nonces.Keys + {input.req.ip}
    ensures forall k :: k in s.nonces && k != input.req.ip ==> k in e.after.nonces && e.after.nonces[k] == s.nonces[k]
    // a failed call answers nothing
    ensures e.error != NoError ==> e.answer == NoAnswer
  {
    var req := input.req;
    if req.command.None? || req.data.None? then
      Effect(MissingData, s, NoAnswer)
    else if !input.dbUp then
      Effect(DbLoginError, s, NoAnswer)
    else if decode(req.data.value).None? then
      Effect(InvalidJson, s, NoAnswer)
    else
      var doc := decode(req.data.value).value;
      var command := req.command.value;
      if command == "get_nonce" then
        var nonce := sha256(input.entropy);
        Effect(NoError, s.(nonces := s.nonces[req.ip := nonce]), NonceAnswer(nonce))
      else if IsProtected(command) then
        var c := CheckNonce(s.nonces, req, sha256);
        var t := s.(nonces := c.nonces);
        if c.verdict.Fail? then
          Effect(c.verdict.error, t, NoAnswer)
        else if command == "get_scores" then
          Effect(NoError, t, PageAnswer(PageSize(doc)))
        else if Lookup(doc, "score").None? then
          Effect(MissingScore, t, NoAnswer)
        else if Lookup(doc, "username").None? then
          Effect(MissingUsername, t, NoAnswer)
        else
          var name := ShortenUsername(StringCast(Lookup(doc, "username").value));
          var score := IntCast(Lookup(doc, "score").value);
          UpsertNeverLowers(s.scores, name, score);
          Effect(NoError, t.(scores := Upsert(s.scores, name, score)), NoAnswer)
      else
        Effect(InvalidCommand, s, NoAnswer)
  }

  /** The reply's payload carries what the answer calls for, over the score table `scores`. */
  ghost predicate Realises(answer: Answer, scores: map<string, int>, payload: Payload)
  {
    match answer
    case NoAnswer => payload == Empty
    case NonceAnswer(n) => payload == NonceIssued(n)
    case PageAnswer(limit) => payload.Page? && IsTopPage(scores, limit, payload.rows) && payload.size == |payload.rows|
  }

  /** The tables after a sequence of calls. */
  function Run(s: Tables, inputs: seq<Input>, sha256: string -> string, decode: string -> Option<Document>): Tables
    decreases |inputs|
  {
    if inputs == [] then s else Run(Handle(s, inputs[0], sha256, decode).after, inputs[1..], sha256, decode)
  }

  /** The pre-checks fail in this order, and a request they stop changes nothing. */
  lemma PrechecksInOrder(s: Tables, input: Input, sha256: string -> string, decode: string -> Option<Document>)
    ensures input.req.command.None? ==> Handle(s, input, sha256, decode) == Effect(MissingData, s, NoAnswer)
    ensures input.req.command.Some? && input.req.data.None? ==>
      Handle(s, input, sha256, decode) == Effect(MissingData, s, NoAnswer)
    ensures input.req.command.Some? && input.req.data.Some? && !input.dbUp ==>
      Handle(s, input, sha256, decode) == Effect(DbLoginError, s, NoAnswer)
    ensures input.req.command.Some? && input.req.data.Some? && input.dbUp && decode(input.req.data.value).None? ==>
      Handle(s, input, sha256, decode) == Effect(InvalidJson, s, NoAnswer)
  {
  }

  /** An unknown command is refused and changes nothing. */
  lemma UnknownCommandChangesNothing(s: Tables, input: Input, sha256: string -> string, decode: string -> Option<Document>)
    requires ReachesSwitch(input, decode)
    requires input.req.command.value != "get_nonce" && !IsProtected(input.req.command.value)
    ensures Handle(s, input, sha256, decode) == Effect(InvalidCommand, s, NoAnswer)
  {
  }

  /**
   * `get_nonce` stores the hash of the random bytes for the caller, replacing any
   * earlier nonce, and touches nothing else.
   */
  lemma IssueNonceReplaces(s: Tables, input: Input, sha256: string -> string, decode: string -> Option<Document>)
    requires ReachesSwitch(input, decode) && input.req.command.value == "get_nonce"
    ensures var e := Handle(s, input, sha256, decode);
      && e.error == NoError
      && e.answer == NonceAnswer(sha256(input.entropy))
      && e.after.nonces == s.nonces[input.req.ip := sha256(input.entropy)]
      && e.after.scores == s.scores
  {
  }

  /** Without a CNONCE header a protected command is refused and the nonce table is left alone. */
  lemma MissingCnonceRefused(s: Tables, input: Input, sha256: string -> string, decode: string -> Option<Document>)
    requires ReachesVerification(input, decode) && input.req.cnonce.None?
    ensures Handle(s, input, sha256, decode) == Effect(InvalidNonce, s, NoAnswer)
  {
  }

  /** Without a stored nonce for the caller a protected command is refused and nothing changes. */
  lemma MissingServerNonceRefused(s: Tables, input: Input, sha256: string -> string, decode: string -> Option<Document>)
    requires ReachesVerification(input, decode) && input.req.cnonce.Some? && input.req.ip !in s.nonces
    ensures Handle(s, input, sha256, decode) == Effect(ServerMissingNonce, s, NoAnswer)
  {
  }

  /**
   * Once a protected command sends a CNONCE and a nonce is stored, the nonce is
   * deleted whatever the outcome, and the call is accepted exactly when the presented
   * hash is the signature over the stored nonce.
   */
  lemma StoredNonceConsumed(s: Tables, input: Input, sha256: string -> string, decode: string -> Option<Document>)
    requires ReachesVerification(input, decode) && input.req.cnonce.Some? && input.req.ip in s.nonces
    ensures var e := Handle(s, input, sha256, decode);
      var req := input.req;
      && e.after.nonces == s.nonces - {req.ip}
      && (e.error == InvalidNonceOrHash <==>
          req.hash != Some(Signature(sha256, s.nonces[req.ip], req.cnonce.value, req.body)))
      && e.error != InvalidNonce && e.error != ServerMissingNonce
  {
  }

  /**
   * Single use: after one protected call from an address that sent a CNONCE, a second
   * one from the same address with no `get_nonce` in between finds no nonce.
   */
  lemma NonceIsSingleUse(s: Tables, first: Input, second: Input, sha256: string -> string, decode: string -> Option<Document>)
    requires ReachesVerification(first, decode) && ReachesVerification(second, decode)
    requires first.req.cnonce.Some? && second.req.cnonce.Some? && first.req.ip == second.req.ip
    ensures var mid := Handle(s, first, sha256, decode).after;
      Handle(mid, second, sha256, decode) == Effect(ServerMissingNonce, mid, NoAnswer)
  {
    var c := CheckNonce(s.nonces, first.req, sha256);
    assert first.req.ip !in c.nonces;
  }

  /** A protected call that succeeded cannot be replayed. */
  lemma ReplayRefused(s: Tables, input: Input, sha256: string -> string, decode: string -> Option<Document>)
    requires ReachesSwitch(input, decode) && IsProtected(input.req.command.value)
    requires Handle(s, input, sha256, decode).error == NoError
    ensures Handle(Handle(s, input, sha256, decode).after, input, sha256, decode).error == ServerMissingNonce
  {
  }

  /**
   * Replacement: after two `get_nonce` calls from one address with different random
   * bytes, a protected call signed over the first nonce is refused, provided SHA-256
   * has no collisions.
   */
  lemma StaleNonceRefused(
    s: Tables, issue1: Input, issue2: Input, call: Input, sha256: string -> string, decode: string -> Option<Document>)
    requires Injective(sha256)
    requires ReachesSwitch(issue1, decode) && issue1.req.command.value == "get_nonce"
    requires ReachesSwitch(issue2, decode) && issue2.req.command.value == "get_nonce"
    requires ReachesVerification(call, decode) && call.req.cnonce.Some?
    requires issue1.req.ip == issue2.req.ip == call.req.ip && issue1.entropy != issue2.entropy
    requires call.req.hash == Some(Signature(sha256, sha256(issue1.entropy), call.req.cnonce.value, call.req.body))
    ensures var t1 := Handle(s, issue1, sha256, decode).after;
      var t2 := Handle(t1, issue2, sha256, decode).after;
      Handle(t2, call, sha256, decode).error == InvalidNonceOrHash
  {
    var t1 := Handle(s, issue1, sha256, decode).after;
    var t2 := Handle(t1, issue2, sha256, decode).after;
    assert t2.nonces[call.req.ip] == sha256(issue2.entropy);
    StaleSignatureRefused(t2.nonces, call.req, sha256, sha256(issue1.entropy));
  }

  /**
   * `add_score` reports a missing score before a missing username, and otherwise
   * stores the maximum of the old and the new score under the shortened name.
   */
  lemma AddScoreOutcome(s: Tables, input: Input, sha256: string -> string, decode: string -> Option<Document>)
    requires ReachesSwitch(input, decode) && input.req.command.value == "add_score"
    requires CheckNonce(s.nonces, input.req, sha256).verdict == Pass
    ensures var doc := decode(input.req.data.value).value;
      var e := Handle(s, input, sha256, decode);
      && e.after.nonces == s.nonces - {input.req.ip}
      && (Lookup(doc, "score").None? ==> e.error == MissingScore && e.after.scores == s.scores)
      && (Lookup(doc, "score").Some? && Lookup(doc, "username").None? ==>
            e.error == MissingUsername && e.after.scores == s.scores)
      && (Lookup(doc, "score").Some? && Lookup(doc, "username").Some? ==>
            var name := ShortenUsername(StringCast(Lookup(doc, "username").value));
            var score := IntCast(Lookup(doc, "score").value);
            && e.error == NoError
            && e.after.scores.Keys == s.scores.Keys + {name}
            && (name in s.scores ==> e.after.scores[name] == (if s.scores[name] >= score then s.scores[name] else score))
            && (name !in s.scores ==> e.after.scores[name] == score)
            && forall u :: u in s.scores && u != name ==> e.after.scores[u] == s.scores[u])
  {
  }

  /** The `score_offset` field has no effect on any call. */
  lemma OffsetIgnored(
    s: Tables, input: Input, other: Input, fields: map<string, Scalar>, offset: Scalar,
    sha256: string -> string, decode: string -> Option<Document>)
    requires input.req.data.Some? && other.req.data.Some?
    requires other == input.(req := input.req.(data := other.req.data))
    requires decode(input.req.data.value) == Some(Object(fields))
    requires decode(other.req.data.value) == Some(Object(fields["score_offset" := offset]))
    ensures Handle(s, other, sha256, decode) == Handle(s, input, sha256, decode)
  {
    LookupUpdate(fields, "score_offset", offset, "score_number");
    LookupUpdate(fields, "score_offset", offset, "score");
    LookupUpdate(fields, "score_offset", offset, "username");
  }

  /** No sequence of calls lowers or removes a stored score. */
  lemma {:induction false} ScoresNeverDecrease(
    s: Tables, inputs: seq<Input>, sha256: string -> string, decode: string -> Option<Document>)
    ensures NoScoreLowered(s.scores, Run(s, inputs, sha256, decode).scores)
    decreases |inputs|
  {
    if inputs != [] {
      var next := Handle(s, inputs[0], sha256, decode).after;
      ScoresNeverDecrease(next, inputs[1..], sha256, decode);
    }
  }
}
