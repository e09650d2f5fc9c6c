# MeowAuth licence guard — Dafny model

MeowAuth guards a Bukkit server plugin. When it starts, it asks a remote
authority to confirm the server, sending the server's port. If the authority
confirms, it stores the address the authority saw and starts a recurring task.
Each tick of that task asks several "what is my address" services. A tick is a
mismatch when any of them reports a different address. When the mismatch
counter reaches `MAX_MISMATCH_COUNT` (5), the authority is asked again. A
confirmation resets the counter and adopts the new address. A failure shuts
the server down and cancels the task. If the initial verification fails, the
server is shut down and no timer is ever started.

The model is split by component:

- `text.dfy` (`Text`): Java's `String.trim()`, and the decimal rendering of an `int` with a parser to read it back.
- `authority_client.dfy` (`AuthorityClient`): normalising the authority URL, building the request URL, and the verdict one authority reply amounts to (`Classify`).
- `ip_probe.dfy` (`IpProbe`): the configured services, and `queryLocalIp` as `QueryLocalIp`.
- `drift_monitor.dfy` (`DriftMonitor`): the probe-round verdict (`Agrees`), and one tick as a state step (`TickStep`). `Run` runs successive ticks. The properties of ticks and runs are lemmas here.
- `controller.dfy` (`Controller`): the initial verification (`Begin`), the whole lifecycle, and worked scenarios.
- `meow_auth.dfy` (`MeowAuthGuard.MeowAuth`): the class. Its fields are the ones the Java object updates, plus a log of host calls. Its methods are proved against `TickStep` and `Begin`.

Host calls are recorded in order in the `hostCalls` log: starting the timer, shutting the server down, and cancelling the timer. The invariant `Inv` limits that log to four shapes:

- `[]`
- `[StartTimer]`
- `[Shutdown]`
- `[StartTimer, Shutdown, CancelTimer]`

So shutdown happens at most once, and it always comes before the cancel.

The reset-on-match flag is a constructor parameter. The shipped value is `CLEAR_MISMATCH_COUNT = false` (src/MeowAuth.java:24). Most tick and run lemmas hold for either value. The counter lemmas come in pairs, one per setting:

- `CounterCountsAllMismatches` and `InterruptedDriftEscalates` fix the flag off.
- `ClearedCounterCountsSinceMatch` and `InterruptedDriftForgottenWhenClearing` fix it on.

One might read `MAX_MISMATCH_COUNT` as a bound on *consecutive* mismatches. With the shipped flag, a matching tick leaves the counter alone (src/MeowAuth.java:134-137). So the counter is the total number of mismatches since the last escalation, consecutive or not. With the flag on, a matching tick resets the counter to 0 as well, so the counter is the number of mismatches since the last matching tick or the last successful re-verification.

## Model

| member | source | states |
|---|---|---|
| AuthorityClient.NormalizeAuthUrl | src/MeowAuth.java:43 | the result is a prefix of the given URL that is exactly one character shorter when the URL ends in '/', and equal to it otherwise |
| AuthorityClient.NormalizeStripsOnlyOne | src/MeowAuth.java:43 | "x//" becomes "x/" and a second normalisation would give "x", so normalising is not idempotent in general |
| AuthorityClient.NormalizeIdempotentIff | src/MeowAuth.java:43 | normalising again changes nothing exactly when the normalised URL has no trailing '/' |
| AuthorityClient.RequestUrl | src/MeowAuth.java:76 | the URL verifyServer requests; RequestUrlCarriesPort proves it is the base, "?port=" and the port, which parses back |
| Text.Decimal | src/MeowAuth.java:76 | the port as string concatenation renders it; DecimalRoundTrip proves it parses back to the same int |
| AuthorityClient.RequestUrlCarriesPort | src/MeowAuth.java:76 | the request URL is the base, then "?port=", then a remainder that parses back to the port |
| Text.DecimalRoundTrip | src/MeowAuth.java:76 | the decimal rendering of any int parses back to that int |
| Text.DecimalCharacters | src/MeowAuth.java:76 | the decimal rendering of any int contains only '-' and digits, so it cannot disturb the query string |
| Text.TrimStart | src/MeowAuth.java:173 | the result is the suffix of the input left after a prefix made only of characters at or below U+0020, and it starts with a kept character when it is not empty |
| Text.TrimEnd | src/MeowAuth.java:173 | the result is the prefix of the input left after a suffix made only of characters at or below U+0020, and it ends with a kept character when it is not empty |
| Text.Trim | src/MeowAuth.java:173 | a non-empty trimmed line starts and ends with a character above U+0020 |
| Text.TrimIsInfix | src/MeowAuth.java:173 | the trimmed line is a contiguous part of the line; everything before it and after it is at or below U+0020, and nothing else is removed |
| Text.TrimEmptyIff | src/MeowAuth.java:173 | trimming gives the empty string if and only if every character is at or below U+0020 |
| Text.TrimIdempotent | src/MeowAuth.java:173 | trimming a trimmed string changes nothing |
| AuthorityClient.Classify | src/MeowAuth.java:71-109 | a reply confirms if and only if it has status 200 and a JSON body with a requestIP, and the confirmed address is that requestIP; it is a rejection if and only if the status is not 200 and the body parsed; every other reply is a transport failure |
| IpProbe.QueryLocalIp | src/MeowAuth.java:164-181 | a probe observes an address if and only if the reply has status 200 and a first line; the address is that line trimmed, so it has no surrounding whitespace |
| IpProbe.PaddedLineIsTrimmed | src/MeowAuth.java:171-175 | a 200 reply whose first line is " 1.2.3.4\t" observes "1.2.3.4" |
| DriftMonitor.Agrees | src/MeowAuth.java:145-155 | checkIpMatch's verdict as its loop folds it; CheckIpMatch is proved to compute it, and AgreesIffAllAccept equates it with the direct reading |
| DriftMonitor.AgreesIffAllAccept | src/MeowAuth.java:147-155 | a round matches if and only if every probe that observed an address observed verifiedIP; unavailable probes are skipped |
| DriftMonitor.AgreesSnoc | src/MeowAuth.java:148-154 | adding one probe result turns the verdict false exactly when that result observed an address other than the confirmed one |
| DriftMonitor.AllUnavailableAgree | src/MeowAuth.java:147-155 | a round in which every probe was unavailable counts as a match |
| DriftMonitor.OneDissenterSuffices | src/MeowAuth.java:150-153 | one probe that observed a different address makes the round a mismatch, whatever the other probes say |
| DriftMonitor.SplitVerdictIsMismatch | src/MeowAuth.java:147-155 | probes reporting 1.2.3.4 and 9.9.9.9 against a confirmed 1.2.3.4 give a mismatch |
| DriftMonitor.NoConfirmedAddressMismatches | src/MeowAuth.java:150 | with no confirmed address (null), a round matches if and only if every probe was unavailable |
| DriftMonitor.TickStep | src/MeowAuth.java:118-138 | one tick's state change; TickKeepsInv, MatchingTick, MismatchBelowThreshold, ReverifyOnlyAtThreshold, EscalationRecovers and EscalationFails state what it does |
| DriftMonitor.TickKeepsInv | src/MeowAuth.java:118-138 | a tick of an active task keeps the invariant, so the counter stays within 0..5 and the host log keeps one of its four shapes |
| DriftMonitor.MatchingTick | src/MeowAuth.java:134-137 | a matching tick keeps the address and makes no host call; it keeps the counter with the flag off and zeroes it with the flag on |
| DriftMonitor.MismatchBelowThreshold | src/MeowAuth.java:119-122 | a mismatching tick whose new count is below 5 increases the counter by exactly one and changes nothing else |
| DriftMonitor.ReverifyOnlyAtThreshold | src/MeowAuth.java:119-124 | unless a mismatch brings the counter to 5, the tick's result does not depend on what re-verification would answer |
| DriftMonitor.EscalationRecovers | src/MeowAuth.java:124-132 | successful re-verification at the threshold zeroes the counter, adopts the authority's requestIP, and makes no host call |
| DriftMonitor.EscalationFails | src/MeowAuth.java:124-128 | failed re-verification at the threshold appends shutdown and then cancel, keeps the address and the incremented counter, and leaves the task inactive |
| DriftMonitor.Run | src/MeowAuth.java:116-139 | the timer firing the tick repeatedly until cancelled; the run lemmas below state its properties |
| DriftMonitor.RunConcat | src/MeowAuth.java:116-139 | running two batches of ticks in turn is the same as running them together |
| DriftMonitor.RunKeepsInv | src/MeowAuth.java:116-139 | the invariant holds after any sequence of ticks |
| DriftMonitor.ActiveCounterBelowThreshold | src/MeowAuth.java:119-133 | after any sequence of ticks, if the task is still active then 0 <= ipMismatchCount < 5 |
| DriftMonitor.AgreeingRunIsQuiet | src/MeowAuth.java:119-137 | ticks whose rounds all match never call the host and never change the address; the counter is unchanged with the flag off and 0 with the flag on |
| DriftMonitor.CounterCountsAllMismatches | src/MeowAuth.java:119-137 | with the flag off, while the total stays below 5, a run adds to the counter the number of mismatching ticks, consecutive or not |
| DriftMonitor.ClearedCounterCountsSinceMatch | src/MeowAuth.java:119-137 | with the flag on, when every mismatching tick finds the counter left by the ticks before it below 4 (no streak reaches 5, however many mismatches the run holds in total), the run changes only the counter, which ends at the number of mismatching ticks after the last matching tick, or at the starting count plus the number of ticks when no tick matched |
| DriftMonitor.EscalationAtThreshold | src/MeowAuth.java:119-133 | mismatching ticks that bring the counter to 5 end in re-verification: success gives counter 0 and the new address, and failure gives counter 5 with shutdown then cancel |
| DriftMonitor.ShutdownIsFinal | src/MeowAuth.java:125-128 | once a run has requested shutdown, further ticks change nothing |
| DriftMonitor.ShutdownNeedsAuthorityFailure | src/MeowAuth.java:119-133 | a run that made any host call contains a tick that ran while the task was active, mismatched, brought the counter to 5, and got a failed re-verification; address drift alone never shuts the server down |
| Controller.Begin | src/MeowAuth.java:54-61 | the initial verification's effect; InitialSuccessStartsMonitoring and InitialFailureRunsNoTicks state what it does |
| Controller.Lifecycle | src/MeowAuth.java:49-64 | startVerification, then the ticks the timer fires; LifecycleKeepsInv states what holds over every lifecycle |
| Controller.InitialSuccessStartsMonitoring | src/MeowAuth.java:54-57 | initial confirmation stores the authority's address and starts the timer, with the counter at 0 and the invariant holding |
| Controller.InitialFailureRunsNoTicks | src/MeowAuth.java:54-61 | initial failure requests shutdown once, never starts the timer, and no later tick changes anything |
| Controller.LifecycleKeepsInv | src/MeowAuth.java:49-64 | over any lifecycle, the invariant holds, shutdown is requested at most once, and a cancel occurs only in the log [StartTimer, Shutdown, CancelTimer] |
| Controller.AgreeingTickAfterStart | src/MeowAuth.java:54-57 | after confirming 1.2.3.4, a tick whose probes all report 1.2.3.4 is a match and the counter stays 0 |
| Controller.SplitTickAfterStart | src/MeowAuth.java:145-155 | after confirming 1.2.3.4, a tick with probes 1.2.3.4 and 9.9.9.9 raises the counter to 1 |
| Controller.InterruptedDriftEscalates | src/MeowAuth.java:119-137 | with the shipped flag, four mismatches, one match and one mismatch reach the threshold; the authority's rejection then shuts the server down and cancels the task |
| Controller.InterruptedDriftForgottenWhenClearing | src/MeowAuth.java:134-137 | with the flag on, the same ticks leave the counter at 1 and the task running |
| MeowAuthGuard.MeowAuth.constructor | src/MeowAuth.java:41-44 | the stored authority URL is the normalised one, and the guard starts with no address, counter 0, and no host call |
| MeowAuthGuard.MeowAuth.VerifyServer | src/MeowAuth.java:70-110 | requests the base URL with "?port=" and the port, returns true exactly when the reply is a confirmation, writes verifiedIP only then, and keeps the guard invariant when it held before |
| MeowAuthGuard.MeowAuth.CheckIpMatch | src/MeowAuth.java:145-159 | asks every configured service without stopping early, and returns true exactly when every observed address equals verifiedIP |
| MeowAuthGuard.MeowAuth.Tick | src/MeowAuth.java:118-138 | the new state is TickStep of the old state, this tick's probe results and the re-verification outcome; the invariant is kept |
| MeowAuthGuard.MeowAuth.StartVerification | src/MeowAuth.java:49-64 | the new state is Begin of the old state and the initial verification's outcome, so the timer starts or shutdown is requested; the invariant is kept |

## Left out

- HTTPS connections, timeouts and reading lines from the response stream: each exchange is a parameter, a function from the requested URL to an `AuthorityReply` or a `ProbeReply`. The probe service URLs are kept only as the constant list that is iterated over.
- JSON parsing (org.json) is folded into `AuthorityBody`: either the body could not be read or parsed, or it is parsed with its optional string field `requestIP`.
- The Bukkit scheduler, asynchronous execution and visibility across threads: ticks are successive method calls on one object. `Tick` requires an active task, because the scheduler never fires a cancelled one.
- `plugin.getServer().shutdown()` and the scheduler's `cancel()` are entries in the `hostCalls` log. `getPort()` is the constructor parameter `serverPort`.
- The check interval `IP_CHECK_INTERVAL` is left out because it only sets the scheduling delay.
- The `catch` in `checkIpMatch` is left out because `queryLocalIp` already catches every exception, so it cannot be reached.
- MeowAuthGuard.MeowAuth.StartVerification: requires a guard on which it was never called. A second call, which would schedule a second timer running alongside the first, is not modelled.
- AuthorityClient.Classify: for a status of 400 or more, Java throws as soon as the body stream is opened. The model treats that reply as a rejection if the body was given as parsed JSON. Either way `verifyServer` returns false, so only the failure's label differs.
- Java `int` overflow of `ipMismatchCount` is not modelled separately, because the invariant keeps the counter between 0 and 5. The port is unbounded here. Its decimal rendering matches `Integer.toString` for every 32-bit value.
