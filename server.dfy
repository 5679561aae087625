/**
 * The endpoint as an object over its two database tables. Each method is one branch
 * of the script; `HandleRequest` runs the whole script for one request.
 */
module Server {
  import opened Wrappers
  import opened PhpValues
  import opened Messages
  import opened NonceAuth
  import opened ScoreLedger
  import opened Dispatch

  class ScoreServer {
    /** The `nonces` table: client address to its outstanding nonce. */
    var nonces: map<string, string>
    /** The `highscores` table: username to best score. */
    var highscores: map<string, int>
    /** `hash('sha256', ·)`. */
    const sha256: string -> string
    /** `json_decode(·, true)`, None where it yields null. */
    const jsonDecode: string -> Option<Document>

    function State(): Tables
      reads this
    {
      Tables(nonces, highscores)
    }

    constructor (sha256: string -> string, jsonDecode: string -> Option<Document>)
      ensures nonces == map[] && highscores == map[]
      ensures this.sha256 == sha256 && this.jsonDecode == jsonDecode
    {
      this.sha256 := sha256;
      this.jsonDecode := jsonDecode;
      nonces := map[];
      highscores := map[];
    }

    /** `get_nonce`: hash fresh random bytes and upsert them as the caller's nonce. */
    method IssueNonce(ip: string, entropy: string) returns (nonce: string)
      modifies this`nonces
      ensures nonce == sha256(entropy)
      ensures nonces == old(nonces)[ip := nonce]
    {
      nonce := sha256(entropy);
      nonces := nonces[ip := nonce];
    }

    /** `verify_nonce`: check the CNONCE header, fetch and delete the stored nonce, compare the hash. */
    method VerifyNonce(req: Request) returns (verdict: Verdict)
      modifies this`nonces
      ensures Check(verdict, nonces) == CheckNonce(old(nonces), req, sha256)
    {
      if req.cnonce.None? {
        return Fail(InvalidNonce);
      }
      if req.ip !in nonces {
        return Fail(ServerMissingNonce);
      }
      var serverNonce := nonces[req.ip];
      nonces := nonces - {req.ip};
      if req.hash != Some(Signature(sha256, serverNonce, req.cnonce.value, req.body)) {
        return Fail(InvalidNonceOrHash);
      }
      return Pass;
    }

    /** `get_scores`: after the nonce check, the top `PageSize(doc)` rows and their count. */
    method GetScores(req: Request, doc: Document) returns (error: ErrorCode, payload: Payload)
      modifies this`nonces
      ensures var c := CheckNonce(old(nonces), req, sha256);
        && nonces == c.nonces
        && (c.verdict.Fail? ==> error == c.verdict.error && payload == Empty)
        && (c.verdict.Pass? ==> error == NoError && Realises(PageAnswer(PageSize(doc)), highscores, payload))
    {
      var verdict := VerifyNonce(req);
      if verdict.Fail? {
        return verdict.error, Empty;
      }
      var rows := SelectTop(highscores, PageSize(doc));
      return NoError, Page(rows, |rows|);
    }

    /** `add_score`: after the nonce check, require score then username, and keep the larger score. */
    method AddScore(req: Request, doc: Document) returns (error: ErrorCode)
      modifies this`nonces, this`highscores
      ensures var c := CheckNonce(old(nonces), req, sha256);
        && nonces == c.nonces
        && (c.verdict.Fail? ==> error == c.verdict.error && highscores == old(highscores))
        && (c.verdict.Pass? && Lookup(doc, "score").None? ==> error == MissingScore && highscores == old(highscores))
        && (c.verdict.Pass? && Lookup(doc, "score").Some? && Lookup(doc, "username").None? ==>
              error == MissingUsername && highscores == old(highscores))
        && (c.verdict.Pass? && Lookup(doc, "score").Some? && Lookup(doc, "username").Some? ==>
              && error == NoError
              && highscores == Upsert(old(highscores),
                                      ShortenUsername(StringCast(Lookup(doc, "username").value)),
                                      IntCast(Lookup(doc, "score").value)))
    {
      var verdict := VerifyNonce(req);
      if verdict.Fail? {
        return verdict.error;
      }
      var score := Lookup(doc, "score");
      if score.None? {
        return MissingScore;
      }
      var username := Lookup(doc, "username");
      if username.None? {
        return MissingUsername;
      }
      var name := StringCast(username.value);
      if |name| > UsernameLimit {
        name := name[UsernameLimit..];
      }
      var value := IntCast(score.value);
      if name !in highscores || highscores[name] < value {
        highscores := highscores[name := value];
      }
      return NoError;
    }

    /** The whole script for one request: the pre-checks, then the command switch. */
    method HandleRequest(req: Request, dbUp: bool, entropy: string) returns (resp: Response)
      modifies this
      ensures var e := Handle(old(State()), Input(req, dbUp, entropy), sha256, jsonDecode);
        && resp.error == e.error
        && State() == e.after
        && Realises(e.answer, highscores, resp.payload)
    {
      if req.command.None? || req.data.None? {
        return Response(MissingData, Empty);
      }
      if !dbUp {
        return Response(DbLoginError, Empty);
      }
      var decoded := jsonDecode(req.data.value);
      if decoded.None? {
        return Response(InvalidJson, Empty);
      }
      var doc := decoded.value;
      match req.command.value {
        case "get_nonce" =>
          var nonce := IssueNonce(req.ip, entropy);
          resp := Response(NoError, NonceIssued(nonce));
        case "get_scores" =>
          var error, payload := GetScores(req, doc);
          resp := Response(error, payload);
        case "add_score" =>
          var error := AddScore(req, doc);
          resp := Response(error, Empty);
        case _ =>
          resp := Response(InvalidCommand, Empty);
      }
    }
  }
}
