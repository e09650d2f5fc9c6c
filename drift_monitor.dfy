/**
 The drift monitor: the verdict of one round of probes, and the state change
 that one tick of the recurring task makes. The state is the confirmed address,
 the mismatch counter and the log of calls made to the host (start the timer,
 shut the server down, cancel the timer), in the order they were made.
 */
module DriftMonitor {
  import opened Options
  import opened AuthorityClient
  import opened IpProbe

  /** Mismatching ticks tolerated before the authority is asked again. */
  const MAX_MISMATCH_COUNT: int := 5

  /** The shipped setting of the reset-on-match flag: a matching tick leaves the counter alone. */
  const CLEAR_MISMATCH_COUNT: bool := false

  datatype HostCall = StartTimer | Shutdown | CancelTimer

  datatype GuardState = GuardState(verifiedIP: Option<string>, mismatchCount: int, hostCalls: seq<HostCall>)

  /** One tick's inputs: the round of probe results, and the outcome re-verification would have. */
  datatype TickInput = TickInput(probes: seq<ProbeResult>, reverify: VerifyOutcome)

  /** The recurring task runs from the moment it is started until it is cancelled. */
  predicate TaskActive(calls: seq<HostCall>) {
    StartTimer in calls && CancelTimer !in calls
  }

  /**
   The guard's invariant. The host-call log is one of the four the lifecycle can
   produce: nothing yet; the timer running; shut down at start; shut down after a
   failed escalation (shutdown first, then cancel). While the timer runs an address
   is confirmed and the counter is below the threshold.
   */
  ghost predicate Inv(s: GuardState) {
    && 0 <= s.mismatchCount <= MAX_MISMATCH_COUNT
    && (s.hostCalls == [] || s.hostCalls == [StartTimer] || s.hostCalls == [Shutdown]
        || s.hostCalls == [StartTimer, Shutdown, CancelTimer])
    && (s.hostCalls == [] ==> s.mismatchCount == 0)
    && (s.hostCalls == [StartTimer] ==> s.mismatchCount < MAX_MISMATCH_COUNT && s.verifiedIP.Some?)
  }

  /** One probe result leaves the round matching: it is unavailable, or it observed the confirmed address. */
  predicate Accepts(result: ProbeResult, verified: Option<string>) {
    result.Observed? ==> Some(result.address) == verified
  }

  /**
   checkIpMatch's verdict, as its loop folds it: starting from true, each result
   in turn can only turn the verdict false, never back to true.
   */
  predicate Agrees(results: seq<ProbeResult>, verified: Option<string>)
    decreases |results|
  {
    results == [] || (Agrees(results[..|results| - 1], verified) && Accepts(results[|results| - 1], verified))
  }

  /** Extending a round by one result: the verdict is the old verdict and the new result's. */
  lemma AgreesSnoc(results: seq<ProbeResult>, r: ProbeResult, verified: Option<string>)
    ensures Agrees(results + [r], verified) == (Agrees(results, verified) && Accepts(r, verified))
  {
    assert (results + [r])[..|results|] == results;
  }

  /**
   The fold agrees with the direct reading: a round matches exactly when every
   probe that observed an address observed the confirmed one. Unavailable probes
   are skipped; one dissenting probe is enough to spoil the round.
   */
  lemma {:induction false} AgreesIffAllAccept(results: seq<ProbeResult>, verified: Option<string>)
    ensures Agrees(results, verified) <==> forall i :: 0 <= i < |results| ==> Accepts(results[i], verified)
    decreases |results|
  {
    if results != [] {
      var init := results[..|results| - 1];
      AgreesIffAllAccept(init, verified);
      assert forall i :: 0 <= i < |init| ==> init[i] == results[i];
    }
  }

  /** A round in which no probe answered counts as a match. */
  lemma AllUnavailableAgree(results: seq<ProbeResult>, verified: Option<string>)
    requires forall i :: 0 <= i < |results| ==> results[i] == Unavailable
    ensures Agrees(results, verified)
  {
    AgreesIffAllAccept(results, verified);
  }

  /** Any observed address other than the confirmed one makes the round a mismatch (OR over probes, not consensus). */
  lemma OneDissenterSuffices(results: seq<ProbeResult>, verified: Option<string>, i: nat)
    requires i < |results| && results[i].Observed? && Some(results[i].address) != verified
    ensures !Agrees(results, verified)
  {
    AgreesIffAllAccept(results, verified);
  }

  /** One probe agreeing and one dissenting is a mismatch. */
  lemma SplitVerdictIsMismatch()
    ensures !Agrees([Observed("1.2.3.4"), Observed("9.9.9.9")], Some("1.2.3.4"))
  {
    OneDissenterSuffices([Observed("1.2.3.4"), Observed("9.9.9.9")], Some("1.2.3.4"), 1);
  }

  /** With no confirmed address (Java's null), any observed address is a mismatch. */
  lemma NoConfirmedAddressMismatches(results: seq<ProbeResult>)
    ensures Agrees(results, None) <==> forall i :: 0 <= i < |results| ==> results[i] == Unavailable
  {
    AgreesIffAllAccept(results, None);
  }

  /**
   One run of the recurring task's body. A mismatching round adds one to the
   counter; on reaching the threshold the authority is asked again, and either
   confirms a (new) address, which resets the counter, or fails, which shuts the
   server down and then cancels the task. A matching round resets the counter
   only when clearOnMatch is set.
   */
  function TickStep(s: GuardState, probes: seq<ProbeResult>, reverify: VerifyOutcome, clearOnMatch: bool): GuardState {
    if !Agrees(probes, s.verifiedIP) then
      var count := s.mismatchCount + 1;
      if count >= MAX_MISMATCH_COUNT then
        if reverify.Confirmed? then s.(verifiedIP := Some(reverify.address), mismatchCount := 0)
        else s.(mismatchCount := count, hostCalls := s.hostCalls + [Shutdown, CancelTimer])
      else s.(mismatchCount := count)
    else if clearOnMatch then s.(mismatchCount := 0)
    else s
  }

  /** A tick keeps the invariant. */
  lemma TickKeepsInv(s: GuardState, probes: seq<ProbeResult>, reverify: VerifyOutcome, clearOnMatch: bool)
    requires Inv(s) && TaskActive(s.hostCalls)
    ensures Inv(TickStep(s, probes, reverify, clearOnMatch))
  {
  }

  /** A matching tick never touches the address or the host, and changes the counter only under clearOnMatch. */
  lemma MatchingTick(s: GuardState, probes: seq<ProbeResult>, reverify: VerifyOutcome, clearOnMatch: bool)
    requires Agrees(probes, s.verifiedIP)
    ensures var r := TickStep(s, probes, reverify, clearOnMatch);
      && r.verifiedIP == s.verifiedIP && r.hostCalls == s.hostCalls
      && r.mismatchCount == (if clearOnMatch then 0 else s.mismatchCount)
  {
  }

  /** A mismatching tick below the threshold adds exactly one to the counter and nothing else. */
  lemma MismatchBelowThreshold(s: GuardState, probes: seq<ProbeResult>, reverify: VerifyOutcome, clearOnMatch: bool)
    requires !Agrees(probes, s.verifiedIP) && s.mismatchCount + 1 < MAX_MISMATCH_COUNT
    ensures TickStep(s, probes, reverify, clearOnMatch) == s.(mismatchCount := s.mismatchCount + 1)
  {
  }

  /** The authority is consulted only when a mismatch brings the counter to the threshold: otherwise its answer is irrelevant. */
  lemma ReverifyOnlyAtThreshold(s: GuardState, probes: seq<ProbeResult>, v1: VerifyOutcome, v2: VerifyOutcome, clearOnMatch: bool)
    requires Agrees(probes, s.verifiedIP) || s.mismatchCount + 1 < MAX_MISMATCH_COUNT
    ensures TickStep(s, probes, v1, clearOnMatch) == TickStep(s, probes, v2, clearOnMatch)
  {
  }

  /** Re-verification that succeeds at the threshold: counter back to 0, the authority's address adopted, no host call. */
  lemma EscalationRecovers(s: GuardState, probes: seq<ProbeResult>, address: string, clearOnMatch: bool)
    requires !Agrees(probes, s.verifiedIP) && s.mismatchCount + 1 >= MAX_MISMATCH_COUNT
    ensures var r := TickStep(s, probes, Confirmed(address), clearOnMatch);
      r.mismatchCount == 0 && r.verifiedIP == Some(address) && r.hostCalls == s.hostCalls
  {
  }

  /** Re-verification that fails at the threshold: shutdown then cancel; counter and address are kept. */
  lemma EscalationFails(s: GuardState, probes: seq<ProbeResult>, reverify: VerifyOutcome, clearOnMatch: bool)
    requires !Agrees(probes, s.verifiedIP) && s.mismatchCount + 1 >= MAX_MISMATCH_COUNT && !reverify.Confirmed?
    ensures var r := TickStep(s, probes, reverify, clearOnMatch);
      && r.mismatchCount == s.mismatchCount + 1 && r.verifiedIP == s.verifiedIP
      && r.hostCalls == s.hostCalls + [Shutdown, CancelTimer]
      && !TaskActive(r.hostCalls)
  {
  }

  /** Successive ticks of the recurring task; once it is cancelled, later ticks never run. */
  function Run(s: GuardState, ticks: seq<TickInput>, clearOnMatch: bool): GuardState
    decreases |ticks|
  {
    if ticks == [] || !TaskActive(s.hostCalls) then s
    else Run(TickStep(s, ticks[0].probes, ticks[0].reverify, clearOnMatch), ticks[1..], clearOnMatch)
  }

  /** Running two batches of ticks one after the other is running them all. */
  lemma {:induction false} RunConcat(s: GuardState, ticks: seq<TickInput>, more: seq<TickInput>, clearOnMatch: bool)
    ensures Run(s, ticks + more, clearOnMatch) == Run(Run(s, ticks, clearOnMatch), more, clearOnMatch)
    decreases |ticks|
  {
    if ticks == [] {
      assert ticks + more == more;
    } else if TaskActive(s.hostCalls) {
      assert (ticks + more)[1..] == ticks[1..] + more;
      RunConcat(TickStep(s, ticks[0].probes, ticks[0].reverify, clearOnMatch), ticks[1..], more, clearOnMatch);
    } else {
      assert Run(s, more, clearOnMatch) == s;
    }
  }

  /** However the ticks go, the invariant holds after each of them. */
  lemma {:induction false} RunKeepsInv(s: GuardState, ticks: seq<TickInput>, clearOnMatch: bool)
    requires Inv(s)
    ensures Inv(Run(s, ticks, clearOnMatch))
    decreases |ticks|
  {
    if ticks != [] && TaskActive(s.hostCalls) {
      TickKeepsInv(s, ticks[0].probes, ticks[0].reverify, clearOnMatch);
      RunKeepsInv(TickStep(s, ticks[0].probes, ticks[0].reverify, clearOnMatch), ticks[1..], clearOnMatch);
    }
  }

  /** While the task is still active after a run of ticks, the counter is below the threshold. */
  lemma ActiveCounterBelowThreshold(s: GuardState, ticks: seq<TickInput>, clearOnMatch: bool)
    requires Inv(s)
    ensures var r := Run(s, ticks, clearOnMatch);
      TaskActive(r.hostCalls) ==> 0 <= r.mismatchCount < MAX_MISMATCH_COUNT
  {
    RunKeepsInv(s, ticks, clearOnMatch);
  }

  /** Ticks whose every round agrees with the confirmed address never reach the host and keep the address. */
  lemma {:induction false} AgreeingRunIsQuiet(s: GuardState, ticks: seq<TickInput>, clearOnMatch: bool)
    requires forall i :: 0 <= i < |ticks| ==> Agrees(ticks[i].probes, s.verifiedIP)
    ensures var r := Run(s, ticks, clearOnMatch);
      && r.hostCalls == s.hostCalls && r.verifiedIP == s.verifiedIP
      && (!clearOnMatch ==> r.mismatchCount == s.mismatchCount)
      && (clearOnMatch && ticks != [] && TaskActive(s.hostCalls) ==> r.mismatchCount == 0)
    decreases |ticks|
  {
    if ticks != [] && TaskActive(s.hostCalls) {
      var next := TickStep(s, ticks[0].probes, ticks[0].reverify, clearOnMatch);
      assert Agrees(ticks[0].probes, s.verifiedIP);
      AgreeingRunIsQuiet(next, ticks[1..], clearOnMatch);
    }
  }

  /** How many of the ticks hold a round that disagrees with the address. */
  function Mismatches(ticks: seq<TickInput>, verified: Option<string>): (n: nat)
    ensures n <= |ticks|
  {
    if ticks == [] then 0
    else (if Agrees(ticks[0].probes, verified) then 0 else 1) + Mismatches(ticks[1..], verified)
  }

  /**
   With the shipped setting (no reset on a match) the counter is the total number
   of mismatching ticks, consecutive or not: as long as that total stays below the
   threshold, a run only adds it to the counter.
   */
  lemma {:induction false} CounterCountsAllMismatches(s: GuardState, ticks: seq<TickInput>)
    requires Inv(s) && TaskActive(s.hostCalls)
    requires s.mismatchCount + Mismatches(ticks, s.verifiedIP) < MAX_MISMATCH_COUNT
    ensures Run(s, ticks, false) == s.(mismatchCount := s.mismatchCount + Mismatches(ticks, s.verifiedIP))
    decreases |ticks|
  {
    if ticks != [] {
      var next := TickStep(s, ticks[0].probes, ticks[0].reverify, false);
      assert next == s.(mismatchCount := s.mismatchCount + (if Agrees(ticks[0].probes, s.verifiedIP) then 0 else 1));
      CounterCountsAllMismatches(next, ticks[1..]);
    }
  }

  /** How many mismatching ticks end the sequence, that is, come after its last matching tick. */
  function TrailingMismatches(ticks: seq<TickInput>, verified: Option<string>): (n: nat)
    ensures n <= |ticks|
  {
    if ticks == [] then 0
    else
      var rest := TrailingMismatches(ticks[1..], verified);
      if rest == |ticks| - 1 && !Agrees(ticks[0].probes, verified) then rest + 1 else rest
  }

  /**
   With reset-on-match set and no escalation on the way, the counter a run of
   ticks leaves behind when it starts from `start`: the mismatching ticks after
   the last matching one, or `start` plus every tick when none matched.
   */
  function ClearedCount(start: nat, ticks: seq<TickInput>, verified: Option<string>): (n: nat)
    ensures n == start + |ticks| || n < |ticks|
  {
    var trailing := TrailingMismatches(ticks, verified);
    if trailing == |ticks| then start + |ticks| else trailing
  }

  /** Peeling the first tick off: it either resets the count or adds one to it. */
  lemma ClearedCountCons(start: nat, ticks: seq<TickInput>, verified: Option<string>)
    requires ticks != []
    ensures ClearedCount(start, ticks, verified)
         == ClearedCount(if Agrees(ticks[0].probes, verified) then 0 else start + 1, ticks[1..], verified)
  {
  }

  /**
   With reset-on-match set, when no streak of mismatches reaches the threshold
   (every mismatching tick finds the counter, as left by the ticks before it,
   below 4), the run only moves the counter, which ends at ClearedCount: the
   mismatching ticks after the last matching one, or the starting count plus
   the number of ticks when no tick matched.
   */
  lemma {:induction false} ClearedCounterCountsSinceMatch(s: GuardState, ticks: seq<TickInput>)
    requires Inv(s) && TaskActive(s.hostCalls)
    requires forall k :: 0 <= k < |ticks| && !Agrees(ticks[k].probes, s.verifiedIP) ==>
      ClearedCount(s.mismatchCount, ticks[..k], s.verifiedIP) + 1 < MAX_MISMATCH_COUNT
    ensures Run(s, ticks, true) == s.(mismatchCount := ClearedCount(s.mismatchCount, ticks, s.verifiedIP))
    decreases |ticks|
  {
    if ticks != [] {
      var matched := Agrees(ticks[0].probes, s.verifiedIP);
      if !matched {
        assert ClearedCount(s.mismatchCount, ticks[..0], s.verifiedIP) == s.mismatchCount;
      }
      var next := TickStep(s, ticks[0].probes, ticks[0].reverify, true);
      assert next == s.(mismatchCount := if matched then 0 else s.mismatchCount + 1);
      var rest := ticks[1..];
      forall k | 0 <= k < |rest| && !Agrees(rest[k].probes, s.verifiedIP)
        ensures ClearedCount(next.mismatchCount, rest[..k], s.verifiedIP) + 1 < MAX_MISMATCH_COUNT
      {
        assert ticks[k + 1] == rest[k];
        assert ticks[..k + 1][1..] == rest[..k];
        ClearedCountCons(s.mismatchCount, ticks[..k + 1], s.verifiedIP);
      }
      ClearedCounterCountsSinceMatch(next, rest);
      ClearedCountCons(s.mismatchCount, ticks, s.verifiedIP);
    }
  }

  /**
   From any monitoring state, the ticks that bring the counter to the threshold,
   all mismatching: the last tick's re-verification decides. Success resets the
   counter and adopts the new address with no host call; failure shuts down and
   cancels, in that order.
   */
  lemma {:induction false} EscalationAtThreshold(s: GuardState, ticks: seq<TickInput>, clearOnMatch: bool)
    requires Inv(s) && TaskActive(s.hostCalls)
    requires |ticks| == MAX_MISMATCH_COUNT - s.mismatchCount
    requires forall i :: 0 <= i < |ticks| ==> !Agrees(ticks[i].probes, s.verifiedIP)
    ensures var r := Run(s, ticks, clearOnMatch);
      var last := ticks[|ticks| - 1].reverify;
      && (last.Confirmed? ==> r == s.(verifiedIP := Some(last.address), mismatchCount := 0))
      && (!last.Confirmed? ==> r == s.(mismatchCount := MAX_MISMATCH_COUNT, hostCalls := s.hostCalls + [Shutdown, CancelTimer]))
    decreases |ticks|
  {
    var next := TickStep(s, ticks[0].probes, ticks[0].reverify, clearOnMatch);
    assert !Agrees(ticks[0].probes, s.verifiedIP);
    if |ticks| > 1 {
      assert next == s.(mismatchCount := s.mismatchCount + 1);
      assert forall i :: 0 <= i < |ticks[1..]| ==> !Agrees(ticks[1..][i].probes, next.verifiedIP) by {
        forall i | 0 <= i < |ticks[1..]| ensures !Agrees(ticks[1..][i].probes, next.verifiedIP) {
          assert ticks[1..][i] == ticks[i + 1];
        }
      }
      EscalationAtThreshold(next, ticks[1..], clearOnMatch);
    } else {
      assert Run(next, ticks[1..], clearOnMatch) == next;
    }
  }

  /** Once a run has requested shutdown, further ticks change nothing: none of them runs. */
  lemma {:induction false} ShutdownIsFinal(s: GuardState, ticks: seq<TickInput>, more: seq<TickInput>, clearOnMatch: bool)
    requires Inv(s) && TaskActive(s.hostCalls)
    requires Shutdown in Run(s, ticks, clearOnMatch).hostCalls
    ensures Run(s, ticks + more, clearOnMatch) == Run(s, ticks, clearOnMatch)
    decreases |ticks|
  {
    if ticks != [] {
      var next := TickStep(s, ticks[0].probes, ticks[0].reverify, clearOnMatch);
      assert (ticks + more)[1..] == ticks[1..] + more;
      TickKeepsInv(s, ticks[0].probes, ticks[0].reverify, clearOnMatch);
      if TaskActive(next.hostCalls) {
        ShutdownIsFinal(next, ticks[1..], more, clearOnMatch);
      } else {
        assert Run(next, ticks[1..] + more, clearOnMatch) == next;
      }
    }
  }

  /**
   Address drift alone never shuts the server down: if a run changed the host
   log, one of its ticks ran with the task active, mismatched, brought the
   counter to the threshold, and got a failed re-verification.
   */
  lemma {:induction false} ShutdownNeedsAuthorityFailure(s: GuardState, ticks: seq<TickInput>, clearOnMatch: bool)
    requires Run(s, ticks, clearOnMatch).hostCalls != s.hostCalls
    ensures exists i :: 0 <= i < |ticks| && EscalationFailedAt(s, ticks, clearOnMatch, i)
    decreases |ticks|
  {
    var next := TickStep(s, ticks[0].probes, ticks[0].reverify, clearOnMatch);
    assert Run(s, ticks[..0], clearOnMatch) == s;
    if next.hostCalls != s.hostCalls {
      assert EscalationFailedAt(s, ticks, clearOnMatch, 0);
    } else {
      ShutdownNeedsAuthorityFailure(next, ticks[1..], clearOnMatch);
      var i :| 0 <= i < |ticks[1..]| && EscalationFailedAt(next, ticks[1..], clearOnMatch, i);
      assert ticks[..i + 1][1..] == ticks[1..][..i];
      assert ticks[i + 1] == ticks[1..][i];
      assert EscalationFailedAt(s, ticks, clearOnMatch, i + 1);
    }
  }

  /** Tick i of the run ran, mismatched at the threshold, and the authority did not confirm. */
  ghost predicate EscalationFailedAt(s: GuardState, ticks: seq<TickInput>, clearOnMatch: bool, i: int)
    requires 0 <= i < |ticks|
  {
    var before := Run(s, ticks[..i], clearOnMatch);
    && TaskActive(before.hostCalls)
    && !Agrees(ticks[i].probes, before.verifiedIP)
    && before.mismatchCount + 1 >= MAX_MISMATCH_COUNT
    && !ticks[i].reverify.Confirmed?
  }
}
