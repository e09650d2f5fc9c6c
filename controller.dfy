/**
 The verification controller: the one-shot initial verification that either
 starts the recurring drift check or shuts the server down, and what the whole
 lifecycle (start, then any number of ticks) can and cannot do.
 */
module Controller {
  import opened Options
  import opened AuthorityClient
  import opened IpProbe
  import opened DriftMonitor

  /** A freshly constructed guard: no address confirmed, no mismatch, no host call. */
  const INITIAL: GuardState := GuardState(None, 0, [])

  /** startVerification's task: a confirmed address is stored and the timer started; anything else shuts down. */
  function Begin(s: GuardState, outcome: VerifyOutcome): GuardState {
    if outcome.Confirmed? then s.(verifiedIP := Some(outcome.address), hostCalls := s.hostCalls + [StartTimer])
    else s.(hostCalls := s.hostCalls + [Shutdown])
  }

  /** Start, then the ticks the timer fires. */
  function Lifecycle(start: VerifyOutcome, ticks: seq<TickInput>, clearOnMatch: bool): GuardState {
    Run(Begin(INITIAL, start), ticks, clearOnMatch)
  }

  /** Initial success confirms the authority's address and starts monitoring with a zero counter. */
  lemma InitialSuccessStartsMonitoring(address: string)
    ensures var s := Begin(INITIAL, Confirmed(address));
      s.verifiedIP == Some(address) && s.mismatchCount == 0 && TaskActive(s.hostCalls) && Inv(s)
  {
  }

  /** Initial failure shuts down once, never starts the timer, and no tick ever runs. */
  lemma InitialFailureRunsNoTicks(start: VerifyOutcome, ticks: seq<TickInput>, clearOnMatch: bool)
    requires !start.Confirmed?
    ensures Lifecycle(start, ticks, clearOnMatch) == GuardState(None, 0, [Shutdown])
  {
  }

  /**
   Over the whole lifecycle the invariant holds, shutdown is requested at most
   once, and whenever the timer is cancelled shutdown was requested just before.
   */
  lemma LifecycleKeepsInv(start: VerifyOutcome, ticks: seq<TickInput>, clearOnMatch: bool)
    ensures var r := Lifecycle(start, ticks, clearOnMatch);
      && Inv(r)
      && multiset(r.hostCalls)[Shutdown] <= 1
      && (CancelTimer in r.hostCalls ==> r.hostCalls == [StartTimer, Shutdown, CancelTimer])
  {
    RunKeepsInv(Begin(INITIAL, start), ticks, clearOnMatch);
    var r := Lifecycle(start, ticks, clearOnMatch);
    assert multiset([StartTimer, Shutdown, CancelTimer])[Shutdown] == 1;
  }

  /** Confirmed as 1.2.3.4, then a tick whose probes both report 1.2.3.4: a match, the counter stays 0. */
  lemma AgreeingTickAfterStart(clearOnMatch: bool, reverify: VerifyOutcome)
    ensures var ip := "1.2.3.4";
      Lifecycle(Confirmed(ip), [TickInput([Observed(ip), Observed(ip)], reverify)], clearOnMatch)
        == GuardState(Some(ip), 0, [StartTimer])
  {
    var ip := "1.2.3.4";
    var s := Begin(INITIAL, Confirmed(ip));
    var ticks := [TickInput([Observed(ip), Observed(ip)], reverify)];
    AgreesIffAllAccept(ticks[0].probes, s.verifiedIP);
    AgreeingRunIsQuiet(s, ticks, clearOnMatch);
  }

  /** Confirmed as 1.2.3.4, then a tick where one probe agrees and the other reports 9.9.9.9: the counter goes to 1. */
  lemma SplitTickAfterStart(clearOnMatch: bool, reverify: VerifyOutcome)
    ensures var ip := "1.2.3.4";
      Lifecycle(Confirmed(ip), [TickInput([Observed(ip), Observed("9.9.9.9")], reverify)], clearOnMatch)
        == GuardState(Some(ip), 1, [StartTimer])
  {
    SplitVerdictIsMismatch();
    var s := Begin(INITIAL, Confirmed("1.2.3.4"));
    var ticks := [TickInput([Observed("1.2.3.4"), Observed("9.9.9.9")], reverify)];
    assert Run(s, ticks, clearOnMatch) == Run(TickStep(s, ticks[0].probes, reverify, clearOnMatch), [], clearOnMatch);
  }

  /** Four drifting ticks, one matching tick, one drifting tick, with the authority rejecting at the end. */
  function InterruptedDrift(ip: string, drifted: string): seq<TickInput> {
    var drift := TickInput([Observed(drifted)], Rejected);
    [drift, drift, drift, drift, TickInput([Observed(ip)], Rejected), drift]
  }

  /**
   With the shipped setting, mismatches need not be consecutive: the sixth tick
   is the fifth mismatch, the authority is asked, and its rejection shuts the
   server down.
   */
  lemma InterruptedDriftEscalates(ip: string, drifted: string)
    requires drifted != ip
    ensures Lifecycle(Confirmed(ip), InterruptedDrift(ip, drifted), CLEAR_MISMATCH_COUNT)
      == GuardState(Some(ip), MAX_MISMATCH_COUNT, [StartTimer, Shutdown, CancelTimer])
  {
    var s := Begin(INITIAL, Confirmed(ip));
    var ticks := InterruptedDrift(ip, drifted);
    var head, last := ticks[..5], ticks[5..];
    assert ticks == head + last;
    RunConcat(s, head, last, false);
    MismatchCountOfInterruptedDrift(ip, drifted);
    CounterCountsAllMismatches(s, head);
    var s4 := Run(s, head, false);
    assert s4 == s.(mismatchCount := 4);
    OneDissenterSuffices(last[0].probes, Some(ip), 0);
    assert Run(s4, last, false) == Run(TickStep(s4, last[0].probes, Rejected, false), [], false);
  }

  lemma MismatchCountOfInterruptedDrift(ip: string, drifted: string)
    requires drifted != ip
    ensures Mismatches(InterruptedDrift(ip, drifted)[..5], Some(ip)) == 4
  {
    var drift := TickInput([Observed(drifted)], Rejected);
    var matching := TickInput([Observed(ip)], Rejected);
    OneDissenterSuffices(drift.probes, Some(ip), 0);
    assert InterruptedDrift(ip, drifted)[..5] == [drift, drift, drift, drift, matching];
    assert Mismatches([matching], Some(ip)) == 0;
    assert Mismatches([drift, matching], Some(ip)) == 1 by {
      assert [drift, matching][1..] == [matching];
    }
    assert Mismatches([drift, drift, matching], Some(ip)) == 2 by {
      assert [drift, drift, matching][1..] == [drift, matching];
    }
    assert Mismatches([drift, drift, drift, matching], Some(ip)) == 3 by {
      assert [drift, drift, drift, matching][1..] == [drift, drift, matching];
    }
    assert [drift, drift, drift, drift, matching][1..] == [drift, drift, drift, matching];
  }

  /** With reset-on-match set, the matching tick forgets the four earlier mismatches: the last drift only brings the counter to 1. */
  lemma InterruptedDriftForgottenWhenClearing(ip: string, drifted: string)
    requires drifted != ip
    ensures Lifecycle(Confirmed(ip), InterruptedDrift(ip, drifted), true) == GuardState(Some(ip), 1, [StartTimer])
  {
    var s := Begin(INITIAL, Confirmed(ip));
    var ticks := InterruptedDrift(ip, drifted);
    var drift := TickInput([Observed(drifted)], Rejected);
    var matching := TickInput([Observed(ip)], Rejected);
    OneDissenterSuffices(drift.probes, Some(ip), 0);
    var head, last := ticks[..5], ticks[5..];
    assert ticks == head + last;
    RunConcat(s, head, last, true);
    var s1 := TickStep(s, drift.probes, Rejected, true);
    var s2 := TickStep(s1, drift.probes, Rejected, true);
    var s3 := TickStep(s2, drift.probes, Rejected, true);
    var s4 := TickStep(s3, drift.probes, Rejected, true);
    assert s4.mismatchCount == 4 && s4.hostCalls == [StartTimer];
    var s5 := TickStep(s4, [Observed(ip)], Rejected, true);
    assert s5 == s;
    assert head == [drift, drift, drift, drift, matching];
    assert Run(s4, [matching], true) == s5;
    assert Run(s3, [drift, matching], true) == s5 by {
      assert [drift, matching][1..] == [matching];
    }
    assert Run(s2, [drift, drift, matching], true) == s5 by {
      assert [drift, drift, matching][1..] == [drift, matching];
    }
    assert Run(s1, [drift, drift, drift, matching], true) == s5 by {
      assert [drift, drift, drift, matching][1..] == [drift, drift, matching];
    }
    assert head[1..] == [drift, drift, drift, matching];
    assert Run(s5, last, true) == Run(TickStep(s5, drift.probes, Rejected, true), [], true);
  }
}
