/**
 The guard object itself. Its fields are the ones the Java class updates in
 place (the confirmed address and the mismatch counter) plus the log of calls
 it makes to the host. Every method is proved against the step functions of
 DriftMonitor and Controller, whose properties are proved there.
 Network replies are parameters: a function from the URL requested to what the
 network answered, so the contracts also pin down which URL is requested.
 */
module MeowAuthGuard {
  import opened Options
  import opened AuthorityClient
  import opened IpProbe
  import opened DriftMonitor
  import opened Controller

  class MeowAuth {
    const authServerUrl: string
    /** The host's listening port (the server's getPort()). */
    const serverPort: int
    /** Reset-on-match policy; the shipped value is CLEAR_MISMATCH_COUNT. */
    const clearMismatchCount: bool

    var verifiedIP: Option<string>
    var ipMismatchCount: int
    /** The calls made to the host so far, in order. */
    var hostCalls: seq<HostCall>

    function State(): GuardState
      reads this
    {
      GuardState(verifiedIP, ipMismatchCount, hostCalls)
    }

    ghost predicate Valid()
      reads this
    {
      Inv(State())
    }

    /** The URL every verification requests. */
    function VerifyUrl(): string {
      RequestUrl(authServerUrl, serverPort)
    }

    constructor (authServerUrl: string, serverPort: int, clearMismatchCount: bool)
      ensures this.authServerUrl == NormalizeAuthUrl(authServerUrl)
      ensures this.serverPort == serverPort && this.clearMismatchCount == clearMismatchCount
      ensures State() == INITIAL && Valid()
    {
      this.authServerUrl := NormalizeAuthUrl(authServerUrl);
      this.serverPort := serverPort;
      this.clearMismatchCount := clearMismatchCount;
      verifiedIP := None;
      ipMismatchCount := 0;
      hostCalls := [];
    }

    /** verifyServer: true only for a confirmed address, which it stores; on failure the field keeps its value. */
    method VerifyServer(authority: string -> AuthorityReply) returns (ok: bool)
      modifies this`verifiedIP
      ensures var outcome := Classify(authority(VerifyUrl()));
        && ok == outcome.Confirmed?
        && verifiedIP == (if ok then Some(outcome.address) else old(verifiedIP))
      ensures old(Valid()) ==> Valid()
    {
      var url := VerifyUrl();
      var outcome := Classify(authority(url));
      if outcome.Confirmed? {
        verifiedIP := Some(outcome.address);
        ok := true;
      } else {
        ok := false;
      }
    }

    /**
     checkIpMatch: asks every service in turn, with no early exit, and answers
     whether every address observed equals the confirmed one. (The Java local
     holding this verdict is called unmatched, but true means matched.)
     */
    method CheckIpMatch(probe: string -> ProbeReply) returns (matched: bool)
      ensures matched == Agrees(ProbeResults(probe), verifiedIP)
    {
      ghost var results := ProbeResults(probe);
      assert |results| == |IP_CHECK_SERVICES|;
      matched := true;
      var i := 0;
      while i < |IP_CHECK_SERVICES|
        invariant 0 <= i <= |IP_CHECK_SERVICES|
        invariant |results| == |IP_CHECK_SERVICES|
        invariant matched == Agrees(results[..i], verifiedIP)
      {
        var localIp := QueryLocalIp(probe(IP_CHECK_SERVICES[i]));
        assert results[..i + 1] == results[..i] + [localIp];
        AgreesSnoc(results[..i], localIp, verifiedIP);
        if localIp.Observed? && Some(localIp.address) != verifiedIP {
          matched := false;
        }
        i := i + 1;
      }
      assert results[..i] == results;
    }

    /** One run of the recurring task's body. The scheduler runs it only while the task is active. */
    method Tick(probe: string -> ProbeReply, authority: string -> AuthorityReply)
      requires Valid() && TaskActive(hostCalls)
      modifies this
      ensures Valid()
      ensures State() == TickStep(old(State()), ProbeResults(probe), Classify(authority(VerifyUrl())), clearMismatchCount)
    {
      ghost var before := State();
      ghost var results := ProbeResults(probe);
      ghost var outcome := Classify(authority(VerifyUrl()));
      TickKeepsInv(before, results, outcome, clearMismatchCount);
      var matched := CheckIpMatch(probe);
      if !matched {
        ipMismatchCount := ipMismatchCount + 1;
        if ipMismatchCount >= MAX_MISMATCH_COUNT {
          var ok := VerifyServer(authority);
          if !ok {
            hostCalls := hostCalls + [Shutdown];
            hostCalls := hostCalls + [CancelTimer];
            EscalationFails(before, results, outcome, clearMismatchCount);
          } else {
            ipMismatchCount := 0;
            EscalationRecovers(before, results, outcome.address, clearMismatchCount);
          }
        } else {
          MismatchBelowThreshold(before, results, outcome, clearMismatchCount);
        }
      } else {
        MatchingTick(before, results, outcome, clearMismatchCount);
        if clearMismatchCount {
          ipMismatchCount := 0;
        }
      }
    }

    /** startVerification: the initial verification, then either the timer or shutdown. */
    method StartVerification(authority: string -> AuthorityReply)
      requires Valid() && hostCalls == []
      modifies this
      ensures Valid()
      ensures State() == Begin(old(State()), Classify(authority(VerifyUrl())))
    {
      var ok := VerifyServer(authority);
      if ok {
        hostCalls := hostCalls + [StartTimer];
        assert hostCalls == [StartTimer];
      } else {
        hostCalls := hostCalls + [Shutdown];
        assert hostCalls == [Shutdown];
      }
    }
  }
}
