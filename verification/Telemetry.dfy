/**
  Telemetry samples and the two violation decisions taken on them: the C
  daemon's fixed limits (src/daemon/sandbox_watchdog.c) and the Python
  executor's configurable policy (src/python/msp/watchdog_control.py).
 */
module Telemetry {
  import opened Wrappers

  const CRITICAL_TEMP_C: real := 85.0
  const MAX_SRAM_ALLOC: nat := 512 * 1024 * 1024

  /** A temperature in degrees Celsius; a failed sensor read reports PosInf. */
  datatype Temp = Finite(celsius: real) | PosInf | NegInf | NotANumber {
    predicate Above(limit: real) {
      PosInf? || (Finite? && celsius > limit)
    }
  }

  datatype Sample = Sample(temperature: Temp, sram: nat, security: bool)

  /** The daemon's test. */
  predicate Violated(s: Sample) {
    s.temperature.Above(CRITICAL_TEMP_C) || s.sram > MAX_SRAM_ALLOC || s.security
  }

  /** The limits themselves are no violation yet. */
  lemma LimitsAreAllowed()
    ensures !Violated(Sample(Finite(85.0), 536870912, false))
    ensures Violated(Sample(Finite(85.1), 0, false)) && Violated(Sample(Finite(20.0), 536870913, false))
    ensures Violated(Sample(NegInf, 0, true)) && !Violated(Sample(NotANumber, 0, false))
  {
  }

  datatype FallbackReason = Temperature | Sram | Security | TelemetryError

  datatype Policy = Policy(
    temperatureThreshold: real,
    sramThreshold: Option<nat>,
    triggerOnSecurity: bool,
    pollInterval: real,
    failSafe: bool)
  {
    predicate Valid() { pollInterval > 0.0 }

    /** The reason is the most severe one: security, then temperature, then memory. */
    function Evaluate(s: Sample): (reason: Option<FallbackReason>) {
      if triggerOnSecurity && s.security then Some(Security)
      else if s.temperature.Above(temperatureThreshold) then Some(Temperature)
      else if sramThreshold.Some? && s.sram > sramThreshold.value then Some(Sram)
      else None
    }
  }

  /** What each reason means; these tests do not look at one another. */
  predicate Breaks(p: Policy, s: Sample, reason: FallbackReason) {
    match reason
    case Security => p.triggerOnSecurity && s.security
    case Temperature =>
      s.temperature.PosInf? || (s.temperature.Finite? && s.temperature.celsius > p.temperatureThreshold)
    case Sram => p.sramThreshold.Some? && s.sram > p.sramThreshold.value
    case TelemetryError => false
  }

  function Severity(reason: FallbackReason): nat {
    match reason
    case Security => 3
    case Temperature => 2
    case Sram => 1
    case TelemetryError => 0
  }

  ghost predicate InPolicy(p: Policy, s: Sample) {
    forall reason :: !Breaks(p, s, reason)
  }

  ghost predicate IsMostSevere(p: Policy, s: Sample, reason: FallbackReason) {
    Breaks(p, s, reason) && forall other | Breaks(p, s, other) :: Severity(other) <= Severity(reason)
  }

  /** A policy reports nothing exactly for samples within it, and otherwise the most severe reason that applies. */
  lemma EvaluateIsMostSevere(p: Policy, s: Sample)
    ensures p.Evaluate(s).None? <==> InPolicy(p, s)
    ensures p.Evaluate(s).Some? ==> IsMostSevere(p, s, p.Evaluate(s).value)
  {
    forall reason | Breaks(p, s, reason) ensures p.Evaluate(s).Some? {
    }
    if p.Evaluate(s).Some? {
      assert Breaks(p, s, p.Evaluate(s).value);
    }
  }

  /** The tests that precede the construction of a policy. */
  function MakePolicy(temperatureThreshold: real, sramThreshold: Option<int>, triggerOnSecurity: bool,
                      pollInterval: real, failSafe: bool): (r: Result<Policy, string>)
    ensures r.Ok? <==> pollInterval > 0.0 && (sramThreshold.Some? ==> sramThreshold.value >= 0)
    ensures r.Ok? ==>
      && r.value.Valid()
      && r.value.temperatureThreshold == temperatureThreshold && r.value.pollInterval == pollInterval
      && r.value.triggerOnSecurity == triggerOnSecurity && r.value.failSafe == failSafe
      && r.value.sramThreshold.Some? == sramThreshold.Some?
      && (sramThreshold.Some? ==> r.value.sramThreshold.value == sramThreshold.value)
  {
    if pollInterval <= 0.0 then Err("poll_interval_s must be positive")
    else match sramThreshold
      case None => Ok(Policy(temperatureThreshold, None, triggerOnSecurity, pollInterval, failSafe))
      case Some(n) =>
        if n < 0 then Err("sram_usage_threshold_bytes must be non-negative")
        else Ok(Policy(temperatureThreshold, Some(n), triggerOnSecurity, pollInterval, failSafe))
  }

  /** A policy with the daemon's own limits. */
  predicate MirrorsDaemon(p: Policy) {
    p.temperatureThreshold == CRITICAL_TEMP_C && p.sramThreshold == Some(MAX_SRAM_ALLOC) && p.triggerOnSecurity
  }

  /** On the same sample, with the same limits, both sides decide alike. */
  lemma MirrorAgrees(p: Policy, s: Sample)
    requires MirrorsDaemon(p)
    ensures p.Evaluate(s).Some? <==> Violated(s)
  {
  }

  // ---------------------------------------------------------------------
  // The polling loop of one watchdog thread
  // ---------------------------------------------------------------------

  datatype WatchdogState = Stopped | Signalled | StillPolling

  /** What a run did: the samples it took and the calls of pthread_kill, by index of the sample. */
  datatype WatchdogRun = WatchdogRun(state: WatchdogState, polls: nat, kills: seq<nat>, violationFlag: bool)

  /**
    keep(i) is the value of *keep_running at test i and samples(i) what poll i
    reads: the run polls while the samples are safe and the flag is up, and
    horizon bounds how long it is watched.
   */
  ghost predicate IsWatchdogRun(keep: nat -> bool, samples: nat -> Sample, horizon: nat, r: WatchdogRun) {
    && r.polls <= horizon
    && (forall i: nat | i < r.polls :: keep(i))
    && (forall i: nat | i + 1 < r.polls :: !Violated(samples(i)))
    && r.violationFlag == r.state.Signalled?
    && match r.state
       case Signalled => r.polls > 0 && Violated(samples(r.polls - 1)) && r.kills == [r.polls - 1]
       case Stopped =>
         && r.kills == [] && (r.polls > 0 ==> !Violated(samples(r.polls - 1)))
         && r.polls < horizon && !keep(r.polls)
       case StillPolling => r.kills == [] && (r.polls > 0 ==> !Violated(samples(r.polls - 1))) && r.polls == horizon
  }

  /** There is one such run. */
  lemma WatchdogRunUnique(keep: nat -> bool, samples: nat -> Sample, horizon: nat, r: WatchdogRun, r': WatchdogRun)
    requires IsWatchdogRun(keep, samples, horizon, r) && IsWatchdogRun(keep, samples, horizon, r')
    ensures r == r'
  {
  }

  method TelemetryWatchdogDaemon(keep: nat -> bool, samples: nat -> Sample, horizon: nat) returns (r: WatchdogRun)
    ensures IsWatchdogRun(keep, samples, horizon, r)
  {
    var polls := 0;
    var kills: seq<nat> := [];
    var violationFlag := false;
    while polls < horizon
      invariant polls <= horizon && kills == [] && !violationFlag
      invariant forall i: nat | i < polls :: keep(i) && !Violated(samples(i))
    {
      if !keep(polls) {
        return WatchdogRun(Stopped, polls, kills, violationFlag);
      }
      var telemetry := samples(polls);
      polls := polls + 1;
      var violated :=
        telemetry.temperature.Above(CRITICAL_TEMP_C) || telemetry.sram > MAX_SRAM_ALLOC || telemetry.security;
      if violated {
        violationFlag := true;
        kills := kills + [polls - 1];
        return WatchdogRun(Signalled, polls, kills, violationFlag);
      }
    }
    r := WatchdogRun(StillPolling, polls, kills, violationFlag);
  }

  /**
    A watchdog signals if and only if some sample violates before the flag is
    seen down, and then once, at the first such sample.
   */
  lemma SignalsExactlyAtFirstViolation(keep: nat -> bool, samples: nat -> Sample, horizon: nat, r: WatchdogRun, k: nat)
    requires IsWatchdogRun(keep, samples, horizon, r)
    ensures r.kills == [k] <==>
      && k < horizon
      && Violated(samples(k))
      && (forall i: nat | i < k :: !Violated(samples(i)))
      && (forall i: nat | i <= k :: keep(i))
  {
    assert k + 1 < r.polls ==> !Violated(samples(k));
    assert r.state.Stopped? ==> !keep(r.polls);
  }
}
