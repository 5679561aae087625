/**
 * The replay protection of `verify_nonce`: one stored nonce per client address,
 * consumed by the first protected request that presents a CNONCE header, and a
 * signature over that nonce, the CNONCE, the raw body and the shared secret.
 */
module NonceAuth {
  import opened Wrappers
  import opened Messages

  /** The shared secret `verify_nonce` falls back to (its default argument). */
  const Secret: string := "1234567890"

  /** The hash the client must present: SHA-256 over nonce, CNONCE, body and secret, in that order. */
  function Signature(sha256: string -> string, serverNonce: string, cnonce: string, body: string): string
  {
    sha256(serverNonce + cnonce + body + Secret)
  }

  /** The verdict of one nonce check together with the nonce table it leaves behind. */
  datatype Check = Check(verdict: Verdict, nonces: map<string, string>)

  /** What `verify_nonce` decides and does to the `nonces` table for one request. */
  function CheckNonce(nonces: map<string, string>, req: Request, sha256: string -> string): (c: Check)
    // accepted exactly when a CNONCE was sent, a nonce is stored and the presented hash matches
    ensures c.verdict.Pass? <==>
      req.cnonce.Some? && req.ip in nonces &&
      req.hash == Some(Signature(sha256, nonces[req.ip], req.cnonce.value, req.body))
    // the three ways to fail, checked in this order
    ensures req.cnonce.None? ==> c.verdict == Fail(InvalidNonce)
    ensures req.cnonce.Some? && req.ip !in nonces ==> c.verdict == Fail(ServerMissingNonce)
    ensures req.cnonce.Some? && req.ip in nonces && c.verdict.Fail? ==> c.verdict == Fail(InvalidNonceOrHash)
    // without a CNONCE nothing is touched; with one, the caller's nonce is gone whatever the outcome
    ensures req.cnonce.None? ==> c.nonces == nonces
    ensures req.cnonce.Some? ==> req.ip !in c.nonces
    // no other address is affected
    ensures c.nonces.Keys <= nonces.Keys
    ensures forall k :: k in nonces && k != req.ip ==> k in c.nonces && c.nonces[k] == nonces[k]
  {
    if req.cnonce.None? then
      Check(Fail(InvalidNonce), nonces)
    else if req.ip !in nonces then
      Check(Fail(ServerMissingNonce), nonces)
    else
      var serverNonce := nonces[req.ip];
      var rest := nonces - {req.ip};
      if req.hash != Some(Signature(sha256, serverNonce, req.cnonce.value, req.body)) then
        Check(Fail(InvalidNonceOrHash), rest)
      else
        Check(Pass, rest)
  }

  /**
   * Single use: once a request with a CNONCE has been checked, the next request
   * from the same address that also sends one is refused for want of a stored
   * nonce, whether or not the first one passed.
   */
  lemma SecondCheckFindsNoNonce(nonces: map<string, string>, first: Request, second: Request, sha256: string -> string)
    requires first.cnonce.Some? && second.cnonce.Some? && first.ip == second.ip
    ensures CheckNonce(CheckNonce(nonces, first, sha256).nonces, second, sha256).verdict == Fail(ServerMissingNonce)
  {
  }

  /** `a + x == b + x` only when `a == b`. */
  lemma {:induction false} AppendCancels(a: string, b: string, x: string)
    requires a + x == b + x
    ensures a == b
  {
    assert |a| == |b|;
    assert a == (a + x)[..|a|];
    assert b == (b + x)[..|b|];
  }

  /** `p + a == p + b` only when `a == b`. */
  lemma {:induction false} PrefixCancels(p: string, a: string, b: string)
    requires p + a == p + b
    ensures a == b
  {
    assert a == (p + a)[|p|..];
    assert b == (p + b)[|p|..];
  }

  ghost predicate Injective(sha256: string -> string)
  {
    forall x, y :: sha256(x) == sha256(y) ==> x == y
  }

  /**
   * With a collision-free hash, the signature pins down the stored nonce (for a fixed
   * CNONCE and body) and the body (for a fixed nonce and CNONCE).
   */
  lemma SignatureSeparates(sha256: string -> string, nonce: string, nonce': string, cnonce: string, body: string, body': string)
    requires Injective(sha256)
    ensures Signature(sha256, nonce, cnonce, body) == Signature(sha256, nonce', cnonce, body) <==> nonce == nonce'
    ensures Signature(sha256, nonce, cnonce, body) == Signature(sha256, nonce, cnonce, body') <==> body == body'
  {
    if Signature(sha256, nonce, cnonce, body) == Signature(sha256, nonce', cnonce, body) {
      var tail := cnonce + body + Secret;
      assert nonce + cnonce + body + Secret == nonce + tail;
      assert nonce' + cnonce + body + Secret == nonce' + tail;
      AppendCancels(nonce, nonce', tail);
    }
    if Signature(sha256, nonce, cnonce, body) == Signature(sha256, nonce, cnonce, body') {
      AppendCancels(nonce + cnonce + body, nonce + cnonce + body', Secret);
      PrefixCancels(nonce + cnonce, body, body');
    }
  }

  /**
   * With a collision-free hash, a signature computed over one stored nonce is
   * refused when a different nonce is stored for the caller.
   */
  lemma StaleSignatureRefused(nonces: map<string, string>, req: Request, sha256: string -> string, staleNonce: string)
    requires Injective(sha256)
    requires req.cnonce.Some? && req.ip in nonces && nonces[req.ip] != staleNonce
    requires req.hash == Some(Signature(sha256, staleNonce, req.cnonce.value, req.body))
    ensures CheckNonce(nonces, req, sha256).verdict == Fail(InvalidNonceOrHash)
  {
    var tail := req.cnonce.value + req.body + Secret;
    assert staleNonce + req.cnonce.value + req.body + Secret == staleNonce + tail;
    assert nonces[req.ip] + req.cnonce.value + req.body + Secret == nonces[req.ip] + tail;
    if CheckNonce(nonces, req, sha256).verdict.Pass? {
      AppendCancels(staleNonce, nonces[req.ip], tail);
    }
  }
}
