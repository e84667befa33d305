/** Reading and writing the bearer credential carried in an `Authorization`
    header value. A missing header reads as the empty string, as Go's
    `Header.Get` returns it. */
module BearerAuth {

  /** The literal, case-sensitive scheme prefix, space included. */
  const Scheme: string := "Bearer "

  /** `extractTokenFromRequest`: strip exactly one leading `Scheme`; any
      other header value (other scheme, other case, empty) yields "". */
  function ExtractToken(authHeader: string): (token: string)
    ensures Scheme <= authHeader ==> Scheme + token == authHeader
    ensures !(Scheme <= authHeader) ==> token == ""
  {
    if Scheme <= authHeader then authHeader[|Scheme|..] else ""
  }

  /** The header value the external verifier is sent for `token`. */
  function OutboundHeader(token: string): (h: string)
    ensures Scheme <= h && |h| == |Scheme| + |token|
    ensures ExtractToken(h) == token
  {
    Scheme + token
  }

  /** Extraction gives a non-empty credential exactly when the header is
      the scheme followed by at least one more character. */
  lemma NonEmptyTokenIff(authHeader: string)
    ensures ExtractToken(authHeader) != "" <==> Scheme <= authHeader && |authHeader| > |Scheme|
  {
  }

  /** A credential that was extracted is forwarded to the verifier in
      exactly the header form it arrived in. */
  lemma OutboundRestoresHeader(authHeader: string)
    requires ExtractToken(authHeader) != ""
    ensures OutboundHeader(ExtractToken(authHeader)) == authHeader
  {
  }

  /** Concrete cases: the bare scheme, another scheme, a missing header, a
      lower-case scheme, no trimming of further spaces, and only one
      prefix removed. */
  lemma ExtractExamples()
    ensures ExtractToken("Bearer ") == ""
    ensures ExtractToken("Basic xyz") == ""
    ensures ExtractToken("") == ""
    ensures ExtractToken("bearer abc") == ""
    ensures ExtractToken("Bearer") == ""
    ensures ExtractToken("Bearer  abc") == " abc"
    ensures ExtractToken("Bearer Bearer abc") == "Bearer abc"
  {
    assert !(Scheme <= "bearer abc") by { assert "bearer abc"[0] != Scheme[0]; }
    assert !(Scheme <= "Basic xyz") by { assert "Basic xyz"[1] != Scheme[1]; }
    assert ExtractToken("Bearer  abc") == OutboundHeader(" abc")[|Scheme|..];
    assert ExtractToken("Bearer Bearer abc") == OutboundHeader("Bearer abc")[|Scheme|..];
  }
}
