/**
 The address probes: each configured service is asked for the server's public
 address, and its reply is reduced to the first line, trimmed, or to nothing.
 */
module IpProbe {
  import opened Options
  import opened Text

  /** The services asked on every tick, in the order they are asked. */
  const IP_CHECK_SERVICES: seq<string> := ["https://api.ip.sb/ip", "https://4.ipw.cn"]

  /** What one HTTPS GET to a probe service produced. */
  datatype ProbeReply =
    | ProbeUnreachable                                 // the connection or the read threw
    | ProbeAnswered(status: int, firstLine: Option<string>)  // None: the body had no line at all

  /** A probe either observed an address or is unavailable (Java's null). */
  datatype ProbeResult = Observed(address: string) | Unavailable

  /**
   queryLocalIp: only a 200 reply with at least one line yields an address, the
   first line trimmed; an empty body makes the trim throw, which is swallowed.
   */
  function QueryLocalIp(reply: ProbeReply): (r: ProbeResult)
    ensures r.Observed? <==> reply.ProbeAnswered? && reply.status == 200 && reply.firstLine.Some?
    ensures r.Observed? ==> r.address == [] || (!IsTrimmable(r.address[0]) && !IsTrimmable(r.address[|r.address| - 1]))
    ensures r.Observed? ==> Trim(reply.firstLine.value) == r.address
  {
    match reply
    case ProbeUnreachable => Unavailable
    case ProbeAnswered(status, firstLine) =>
      if status == 200 && firstLine.Some? then Observed(Trim(firstLine.value)) else Unavailable
  }

  /** Surrounding blanks in the reply do not reach the observed address. */
  lemma PaddedLineIsTrimmed()
    ensures QueryLocalIp(ProbeAnswered(200, Some(" 1.2.3.4\t"))) == Observed("1.2.3.4")
  {
    var line, padded, bare := " 1.2.3.4\t", "1.2.3.4\t", "1.2.3.4";
    assert line[1..] == padded && IsTrimmable(line[0]);
    assert TrimStart(padded) == padded by {
      assert !IsTrimmable(padded[0]);
    }
    assert TrimStart(line) == padded;
    assert padded[..|padded| - 1] == bare && IsTrimmable(padded[|padded| - 1]);
    assert TrimEnd(bare) == bare by {
      assert !IsTrimmable(bare[|bare| - 1]);
    }
    assert TrimEnd(padded) == bare;
  }

  /** The results of one round of probing, one per configured service, given how each service answers. */
  function ProbeResults(probe: string -> ProbeReply): seq<ProbeResult> {
    seq(|IP_CHECK_SERVICES|, i requires 0 <= i < |IP_CHECK_SERVICES| => QueryLocalIp(probe(IP_CHECK_SERVICES[i])))
  }
}
