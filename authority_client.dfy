/**
 The authority side of the guard: the base URL as the constructor keeps it,
 the request URL that carries the server's port, and the verdict that one
 reply of the authority amounts to. The HTTPS exchange itself is not modelled:
 its result arrives as an AuthorityReply.
 */
module AuthorityClient {
  import opened Options
  import opened Text

  /** What one HTTPS round trip to the authority produced. */
  datatype AuthorityReply =
    | Unreachable                                     // connecting or reading the status code threw
    | Answered(status: int, body: AuthorityBody)

  /** The reply body as the JSON reader saw it. */
  datatype AuthorityBody =
    | Malformed                                       // the stream could not be read, or was not a JSON object
    | Json(requestIP: Option<string>)                 // the string field "requestIP", when there is one

  /** Verdict of one verification attempt. Rejected and TransportError are both failures. */
  datatype VerifyOutcome = Confirmed(address: string) | Rejected | TransportError

  predicate EndsWithSlash(url: string) {
    |url| > 0 && url[|url| - 1] == '/'
  }

  /** The constructor's normalisation: one trailing '/' is removed, and nothing else changes. */
  function NormalizeAuthUrl(url: string): (r: string)
    ensures r <= url
    ensures |url| - |r| == (if EndsWithSlash(url) then 1 else 0)
  {
    if EndsWithSlash(url) then url[..|url| - 1] else url
  }

  /** Only one slash goes: "x//" becomes "x/", and normalising again would give "x". */
  lemma NormalizeStripsOnlyOne()
    ensures NormalizeAuthUrl("x//") == "x/"
    ensures NormalizeAuthUrl(NormalizeAuthUrl("x//")) == "x"
  {
  }

  /** Normalising a second time changes nothing exactly when the first result has no trailing '/'. */
  lemma NormalizeIdempotentIff(url: string)
    ensures NormalizeAuthUrl(NormalizeAuthUrl(url)) == NormalizeAuthUrl(url) <==> !EndsWithSlash(NormalizeAuthUrl(url))
  {
  }

  /** The URL verifyServer requests: the normalised base, then "?port=" and the port in decimal. */
  function RequestUrl(base: string, port: int): string {
    base + "?port=" + Decimal(port)
  }

  /** The request URL starts with the base, then the query key, and its remainder reads back as the port. */
  lemma RequestUrlCarriesPort(base: string, port: int)
    ensures var url := RequestUrl(base, port);
      && |url| > |base| + 6
      && url[..|base|] == base
      && url[|base|..|base| + 6] == "?port="
      && ParseDecimal(url[|base| + 6..]) == Some(port)
  {
    var url := RequestUrl(base, port);
    DecimalRoundTrip(port);
    assert url[|base| + 6..] == Decimal(port);
    assert url[..|base|] == base;
    assert url[|base|..|base| + 6] == "?port=";
  }

  /**
   What verifyServer concludes from a reply. The body is read and parsed before
   the status is looked at, so an unreadable or non-JSON body fails whatever the
   status; a 200 whose JSON lacks "requestIP" fails too.
   */
  function Classify(reply: AuthorityReply): (r: VerifyOutcome)
    ensures r.Confirmed? <==> reply.Answered? && reply.status == 200 && reply.body.Json? && reply.body.requestIP.Some?
    ensures r.Confirmed? ==> r.address == reply.body.requestIP.value
    ensures r.Rejected? <==> reply.Answered? && reply.status != 200 && reply.body.Json?
  {
    match reply
    case Unreachable => TransportError
    case Answered(status, body) =>
      match body
      case Malformed => TransportError
      case Json(requestIP) =>
        if status != 200 then Rejected
        else if requestIP.Some? then Confirmed(requestIP.value)
        else TransportError
  }
}
