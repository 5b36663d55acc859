/**
  The guarded executor (src/python/msp/watchdog_control.py): a parent that
  polls a queue, a child process and a telemetry probe, and reclaims the child
  on every way out.

  Time is measured from the start of the polling loop. The environment decides
  when the child publishes and exits, how it reacts to signals, how long every
  step of the parent takes and what each probe yields.
 */
module Executor {
  import opened Wrappers
  import opened Telemetry

  // ---------------------------------------------------------------------
  // The child
  // ---------------------------------------------------------------------

  /** How the target ends: Dies stands for everything that escapes "except Exception". */
  datatype TargetOutcome<V> = Returns(value: V, picklable: bool) | Raises(typeName: string, text: string) | Dies

  datatype Message<V> = OkMessage(value: V) | ErrorMessage(typeName: string, text: string)

  function ChildEntrypoint<V>(outcome: TargetOutcome<V>): Option<Message<V>> {
    match outcome
    case Returns(value, picklable) =>
      if picklable then Some(OkMessage(value))
      else Some(ErrorMessage("PicklingError", "return value could not be pickled"))
    case Raises(typeName, text) => Some(ErrorMessage(typeName, text))
    case Dies => None
  }

  datatype Publication<V> = Publication(at: real, message: Message<V>)

  /**
    What the child does if nobody signals it, how long it survives SIGTERM
    (None: it ignores it), and how long its death by SIGKILL takes.
   */
  datatype Child<V> = Child(
    publish: Option<Publication<V>>,
    exit: Option<real>,
    termDelay: Option<real>,
    killDelay: real)

  predicate By(t: Option<real>, now: real) { t.Some? && t.value <= now }

  function Earlier(s: Option<real>, t: Option<real>): (r: Option<real>)
    ensures forall now :: By(r, now) <==> By(s, now) || By(t, now)
  {
    if s.None? then t else if t.None? then s else if s.value <= t.value then s else t
  }

  function After(start: Option<real>, delay: Option<real>): Option<real> {
    if start.Some? && delay.Some? then Some(start.value + delay.value) else None
  }

  /** The operating system's view of the child; the signals are fields because sending one changes them. */
  class ChildProcess<V> {
    const child: Child<V>
    var termAt: Option<real>
    var killAt: Option<real>

    constructor (child: Child<V>)
      ensures this.child == child && termAt == None && killAt == None
    {
      this.child := child;
      termAt, killAt := None, None;
    }

    function Death(): Option<real>
      reads this
    {
      Earlier(child.exit, Earlier(After(termAt, child.termDelay), After(killAt, Some(child.killDelay))))
    }

    predicate IsAlive(now: real)
      reads this
    {
      !By(Death(), now)
    }

    predicate IsGone(now: real)
      reads this
    {
      !IsAlive(now) || killAt.Some?
    }

    method Terminate(now: real)
      modifies this`termAt
      ensures termAt == if old(termAt).Some? then old(termAt) else Some(now)
    {
      if termAt.None? {
        termAt := Some(now);
      }
    }

    method Kill(now: real)
      modifies this`killAt
      ensures killAt == if old(killAt).Some? then old(killAt) else Some(now)
    {
      if killAt.None? {
        killAt := Some(now);
      }
    }

    /** The time at which join(timeout) returns. */
    function Join(now: real, timeout: real): (later: real)
      requires timeout >= 0.0
      reads this
      ensures now <= later <= now + timeout
      ensures By(Death(), now + timeout) ==> !IsAlive(later)
      ensures !By(Death(), now + timeout) ==> later == now + timeout
    {
      if By(Death(), now) then now
      else if By(Death(), now + timeout) then Death().value
      else now + timeout
    }
  }

  // ---------------------------------------------------------------------
  // The parent's surroundings
  // ---------------------------------------------------------------------

  /** Aborted stands for an exception that "except Exception" does not catch. */
  datatype Probe = Sampled(sample: Sample) | Failed(text: string) | Aborted

  /**
    One turn of the loop: the time from the poll's timeout to the liveness
    test, from there to the drain if the child is dead, the time the probe
    takes, and what it yields.
   */
  datatype Turn = Turn(checkLag: real, drainLag: real, probeTime: real, probe: Probe)

  function Later(s: real, t: real): real { if s < t then t else s }

  datatype Env<V> = Env(child: Child<V>, turns: nat -> Turn, policy: Policy, grace: real) {
    ghost predicate Valid() {
      && policy.Valid() && grace >= 0.0
      && child.killDelay >= 0.0 && (child.termDelay.Some? ==> child.termDelay.value >= 0.0)
      && forall i: nat :: turns(i).checkLag >= 0.0 && turns(i).drainLag >= 0.0 && turns(i).probeTime >= 0.0
    }

    predicate PublishedBy(now: real) { child.publish.Some? && child.publish.value.at <= now }

    /** When the i-th poll starts, if no earlier turn ended the loop. */
    function PollStart(i: nat): real
      decreases i, 0
    {
      if i == 0 then 0.0 else PollEnd(i - 1) + turns(i - 1).checkLag + turns(i - 1).probeTime
    }

    /** When the i-th poll times out. */
    function PollEnd(i: nat): real
      decreases i, 1
    {
      PollStart(i) + policy.pollInterval
    }

    function CheckTime(i: nat): real { PollEnd(i) + turns(i).checkLag }

    function DrainTime(i: nat): real { CheckTime(i) + turns(i).drainLag }

    function ProbeEnd(i: nat): real { CheckTime(i) + turns(i).probeTime }

    /** What the i-th turn does to the loop. */
    function TurnExit(i: nat): LoopExit<V> {
      if PublishedBy(PollEnd(i)) then
        GotMessage(child.publish.value.message, Later(PollStart(i), child.publish.value.at))
      else if By(child.exit, CheckTime(i)) then
        if PublishedBy(DrainTime(i))
        then GotMessage(child.publish.value.message, DrainTime(i))
        else FoundDead(DrainTime(i))
      else
        match turns(i).probe
        case Aborted => Propagated(ProbeEnd(i))
        case Failed(text) =>
          if policy.failSafe
          then FellBack(TelemetryError, Sample(PosInf, 0, false), Some(text), ProbeEnd(i))
          else Continues
        case Sampled(s) =>
          match policy.Evaluate(s)
          case Some(reason) => FellBack(reason, s, None, ProbeEnd(i))
          case None => Continues
    }

    /** Turn n is the one that ends the loop. */
    ghost predicate EndsAt(n: nat) {
      !TurnExit(n).Continues? && forall j: nat | j < n :: TurnExit(j).Continues?
    }
  }

  /** How the loop is left, and when. */
  datatype LoopExit<V> =
    | Continues
    | GotMessage(message: Message<V>, at: real)
    | FoundDead(at: real)
    | FellBack(reason: FallbackReason, sample: Sample, error: Option<string>, at: real)
    | Propagated(at: real)

  // ---------------------------------------------------------------------
  // The result
  // ---------------------------------------------------------------------

  datatype RunError = ProbeFailed(text: string) | GuardedProcessError(typeName: string, text: string) | NoResult

  datatype ProtectedRunResult<V> = ProtectedRunResult(
    completed: bool,
    fallbackTriggered: bool,
    fallbackReason: Option<FallbackReason>,
    violationTelemetry: Option<Sample>,
    returnValue: Option<V>,
    exception: Option<RunError>)

  /** Raised: an exception left run(). Unfinished: the loop was still polling when the observation ended. */
  datatype Outcome<V> = Returned(result: ProtectedRunResult<V>) | Raised | Unfinished

  /**
    polls counts the polls that timed out; gone: the child is dead or SIGKILL
    was sent; the last two say when SIGTERM and SIGKILL were sent, if they were.
   */
  datatype Report<V> = Report(
    outcome: Outcome<V>,
    polls: nat,
    finishedAt: real,
    gone: bool,
    sigterm: Option<real>,
    sigkill: Option<real>)

  function FallbackResult<V>(reason: FallbackReason, sample: Sample, error: Option<string>): ProtectedRunResult<V> {
    ProtectedRunResult(false, true, Some(reason), Some(sample), None,
                       if error.Some? then Some(ProbeFailed(error.value)) else None)
  }

  function MessageResult<V>(m: Option<Message<V>>): ProtectedRunResult<V> {
    match m
    case None => ProtectedRunResult(false, false, None, None, None, Some(NoResult))
    case Some(OkMessage(value)) => ProtectedRunResult(true, false, None, None, Some(value), None)
    case Some(ErrorMessage(typeName, text)) =>
      ProtectedRunResult(true, false, None, None, None, Some(GuardedProcessError(typeName, text)))
  }

  /** The message that the parent has in hand after the bounded wait that follows an empty-handed exit. */
  function FinalMessage<V>(e: Env<V>, x: LoopExit<V>): Option<Message<V>> {
    match x
    case GotMessage(m, _) => Some(m)
    case FoundDead(at) => if e.PublishedBy(at + e.grace) then Some(e.child.publish.value.message) else None
    case _ => None
  }

  function OutcomeOf<V>(e: Env<V>, x: LoopExit<V>): Outcome<V> {
    match x
    case Continues => Unfinished
    case Propagated(_) => Raised
    case FellBack(reason, sample, error, _) => Returned(FallbackResult(reason, sample, error))
    case _ => Returned(MessageResult(FinalMessage(e, x)))
  }

  // ---------------------------------------------------------------------
  // run() and _terminate()
  // ---------------------------------------------------------------------

  /** queue.get(timeout): the message if it becomes visible in time, and the time of the return. */
  function Get<V>(c: Child<V>, now: real, timeout: real): (Option<Message<V>>, real) {
    if c.publish.Some? && c.publish.value.at <= now + timeout
    then (Some(c.publish.value.message), Later(now, c.publish.value.at))
    else (None, now + timeout)
  }

  /** SIGTERM, then SIGKILL if the child survives the grace period. */
  method TerminateChild<V>(process: ChildProcess<V>, start: real, grace: real) returns (now: real)
    requires grace >= 0.0
    modifies process
    ensures start <= now <= start + 2.0 * grace
    ensures process.IsGone(now)
    ensures old(!process.IsAlive(start)) ==>
      now == start && process.termAt == old(process.termAt) && process.killAt == old(process.killAt)
    ensures old(process.IsAlive(start) && process.termAt.None?) ==> process.termAt == Some(start)
    ensures old(process.IsAlive(start) && process.termAt.None? && process.killAt.None?) ==>
      && process.termAt == Some(start)
      && process.killAt ==
         if By(process.child.exit, start + grace) || By(process.child.termDelay, grace)
         then None else Some(start + grace)
    ensures process.killAt.None? ==> !process.IsAlive(now)
    ensures old(process.killAt.None?) && process.child.killDelay <= grace ==> !process.IsAlive(now)
  {
    now := start;
    if !process.IsAlive(now) {
      return;
    }
    process.Terminate(now);
    now := process.Join(now, grace);
    if process.IsAlive(now) {
      process.Kill(now);
      now := process.Join(now, grace);
    }
  }

  /** The finally clause. */
  method Reclaim<V>(process: ChildProcess<V>, start: real, grace: real) returns (now: real)
    requires grace >= 0.0
    modifies process
    ensures start <= now <= start + grace
    ensures old(!process.IsAlive(start)) ==> now == start
    ensures process.IsGone(now) && process.termAt == old(process.termAt)
    ensures process.killAt ==
      if old(process.killAt.None? && process.IsAlive(start)) then Some(start) else old(process.killAt)
  {
    now := start;
    if process.IsAlive(now) {
      process.Kill(now);
      now := process.Join(now, grace);
    }
  }

  /** run()'s local variables when the loop is left. */
  datatype Locals<V> = Locals(
    fallbackReason: Option<FallbackReason>,
    violationTelemetry: Option<Sample>,
    telemetryError: Option<string>,
    childResult: Option<Message<V>>,
    aborted: bool)

  ghost predicate LeftWith<V>(x: LoopExit<V>, l: Locals<V>, now: real) {
    match x
    case Continues => false
    case GotMessage(m, at) => l == Locals(None, None, None, Some(m), false) && now == at
    case FoundDead(at) => l == Locals(None, None, None, None, false) && now == at
    case FellBack(reason, sample, error, at) => l == Locals(Some(reason), Some(sample), error, None, false) && now == at
    case Propagated(at) => l == Locals(None, None, None, None, true) && now == at
  }

  /** The polling loop, watched for at most horizon turns. */
  method PollLoop<V>(e: Env<V>, process: ChildProcess<V>, horizon: nat)
    returns (n: nat, now: real, polls: nat, l: Locals<V>)
    requires e.Valid() && process.child == e.child && process.termAt.None? && process.killAt.None?
    ensures n <= horizon && forall j: nat | j < n :: e.TurnExit(j).Continues?
    ensures n < horizon ==> LeftWith(e.TurnExit(n), l, now) && polls == if e.PublishedBy(e.PollEnd(n)) then n else n + 1
  {
    now := 0.0;
    l := Locals(None, None, None, None, false);
    polls := 0;
    n := 0;
    while n < horizon
      invariant 0 <= n <= horizon && polls == n
      invariant now == e.PollStart(n)
      invariant forall j: nat | j < n :: e.TurnExit(j).Continues?
      invariant l == Locals(None, None, None, None, false)
    {
      var (message, later) := Get(e.child, now, e.policy.pollInterval);
      now := later;
      if message.Some? {
        l := l.(childResult := message);
        return;
      }
      polls := polls + 1;
      now := now + e.turns(n).checkLag;
      if !process.IsAlive(now) {
        now := now + e.turns(n).drainLag;
        l := l.(childResult := Get(e.child, now, 0.0).0);
        return;
      }
      now := now + e.turns(n).probeTime;
      match e.turns(n).probe {
        case Aborted =>
          l := l.(aborted := true);
          return;
        case Failed(text) =>
          if e.policy.failSafe {
            l := l.(fallbackReason := Some(TelemetryError), violationTelemetry := Some(Sample(PosInf, 0, false)),
                    telemetryError := Some(text));
            return;
          }
        case Sampled(reading) =>
          var reason := e.policy.Evaluate(reading);
          if reason.Some? {
            l := l.(fallbackReason := reason, violationTelemetry := Some(reading));
            return;
          }
      }
      n := n + 1;
    }
  }

  /** Only a target that dies says nothing. */
  lemma OnlyDeathIsSilent<V>(outcome: TargetOutcome<V>)
    ensures ChildEntrypoint(outcome).None? <==> outcome.Dies?
  {
  }

  /** When the parent has decided, including the bounded wait for a late message. */
  function DecidedAt<V>(e: Env<V>, x: LoopExit<V>): real {
    match x
    case Continues => 0.0
    case GotMessage(_, at) => at
    case FoundDead(at) => if e.PublishedBy(at + e.grace) then Later(at, e.child.publish.value.at) else at + e.grace
    case FellBack(_, _, _, at) => at
    case Propagated(at) => at
  }

  /** SIGTERM goes to a child that is alive when the parent has decided, unless an exception passes through. */
  function SigTerm<V>(e: Env<V>, x: LoopExit<V>): Option<real> {
    if x.Propagated? || By(e.child.exit, DecidedAt(e, x)) then None else Some(DecidedAt(e, x))
  }

  /** SIGKILL follows after the grace period if the child is still there, and at once if an exception passes through. */
  function SigKill<V>(e: Env<V>, x: LoopExit<V>): Option<real> {
    var decided := DecidedAt(e, x);
    if x.Propagated? then
      if By(e.child.exit, decided) then None else Some(decided)
    else if By(e.child.exit, decided + e.grace) || By(e.child.termDelay, e.grace) then None
    else Some(decided + e.grace)
  }

  /** Everything a report says about a loop that ended at turn n. */
  ghost predicate IsReport<V>(e: Env<V>, n: nat, r: Report<V>) {
    var x := e.TurnExit(n);
    && r.outcome == OutcomeOf(e, x)
    && r.polls == (if e.PublishedBy(e.PollEnd(n)) then n else n + 1)
    && r.gone && r.sigterm == SigTerm(e, x) && r.sigkill == SigKill(e, x)
    && DecidedAt(e, x) <= r.finishedAt <= DecidedAt(e, x) + 3.0 * e.grace
    && (e.child.killDelay <= e.grace ==>
        r.finishedAt <= DecidedAt(e, x) + (if By(e.child.exit, DecidedAt(e, x)) then 0.0 else 2.0 * e.grace))
  }

  /** The end of every decided run: _terminate, then the finally clause. */
  method EndChild<V>(process: ChildProcess<V>, start: real, grace: real) returns (now: real)
    requires grace >= 0.0 && process.termAt.None? && process.killAt.None?
    modifies process
    ensures process.termAt == if By(process.child.exit, start) then None else Some(start)
    ensures process.killAt ==
      if By(process.child.exit, start + grace) || By(process.child.termDelay, grace) then None else Some(start + grace)
    ensures process.IsGone(now) && start <= now <= start + 3.0 * grace
    ensures process.child.killDelay <= grace ==>
      now <= start + if By(process.child.exit, start) then 0.0 else 2.0 * grace
  {
    now := TerminateChild(process, start, grace);
    now := Reclaim(process, now, grace);
  }

  /** The last bounded wait, and the result of a run without fallback. */
  method FinishWithResult<V>(e: Env<V>, process: ChildProcess<V>, ghost n: nat, start: real, polls: nat,
                             received: Option<Message<V>>)
    returns (r: Report<V>)
    requires e.Valid() && process.child == e.child && process.termAt.None? && process.killAt.None?
    requires polls == if e.PublishedBy(e.PollEnd(n)) then n else n + 1
    requires e.TurnExit(n).GotMessage? || e.TurnExit(n).FoundDead?
    requires start == e.TurnExit(n).at
    requires received == if e.TurnExit(n).GotMessage? then Some(e.TurnExit(n).message) else None
    modifies process
    ensures IsReport(e, n, r) && !r.outcome.Unfinished?
  {
    var childResult, now := received, start;
    if childResult.None? {
      var (message, later) := Get(e.child, now, e.grace);
      childResult, now := message, later;
    }
    now := EndChild(process, now, e.grace);
    r := Report(Returned(MessageResult(childResult)), polls, now, process.IsGone(now), process.termAt, process.killAt);
  }

  /** What follows the loop, up to and including the finally clause. */
  method Finish<V>(e: Env<V>, process: ChildProcess<V>, ghost n: nat, start: real, polls: nat, l: Locals<V>)
    returns (r: Report<V>)
    requires e.Valid() && process.child == e.child && process.termAt.None? && process.killAt.None?
    requires LeftWith(e.TurnExit(n), l, start) && polls == if e.PublishedBy(e.PollEnd(n)) then n else n + 1
    modifies process
    ensures IsReport(e, n, r) && !r.outcome.Unfinished?
  {
    var now := start;
    if l.aborted {
      now := Reclaim(process, now, e.grace);
      return Report(Raised, polls, now, process.IsGone(now), process.termAt, process.killAt);
    }
    if l.fallbackReason.Some? {
      now := EndChild(process, now, e.grace);
      return Report(Returned(FallbackResult(l.fallbackReason.value, l.violationTelemetry.value, l.telemetryError)),
                    polls, now, process.IsGone(now), process.termAt, process.killAt);
    }
    r := FinishWithResult(e, process, n, now, polls, l.childResult);
  }

  /** One call of run(), watched for at most horizon turns of its loop. */
  method Execute<V>(e: Env<V>, horizon: nat) returns (r: Report<V>)
    requires e.Valid()
    ensures r.outcome.Unfinished? ==> forall j: nat | j < horizon :: e.TurnExit(j).Continues?
    ensures !r.outcome.Unfinished? ==> exists n: nat :: n < horizon && e.EndsAt(n) && IsReport(e, n, r)
  {
    var process := new ChildProcess(e.child);
    var n, now, polls, l := PollLoop(e, process, horizon);
    if n == horizon {
      return Report(Unfinished, polls, now, false, None, None);
    }
    r := Finish(e, process, n, now, polls, l);
    assert e.EndsAt(n);
  }

  // ---------------------------------------------------------------------
  // Soundness of the verdict
  // ---------------------------------------------------------------------

  /** A probe that lets the loop go on. */
  ghost predicate Harmless(policy: Policy, probe: Probe) {
    match probe
    case Sampled(s) => InPolicy(policy, s)
    case Failed(_) => !policy.failSafe
    case Aborted => false
  }

  ghost predicate IsRun<V>(e: Env<V>, n: nat, r: Report<V>) {
    e.Valid() && e.EndsAt(n) && IsReport(e, n, r)
  }

  /** What each way out of a turn says about the child: only an empty queue after the drain counts as empty. */
  lemma ExitMeans<V>(e: Env<V>, i: nat)
    requires e.Valid()
    ensures
      match e.TurnExit(i)
      case GotMessage(m, at) =>
        && e.child.publish.Some? && m == e.child.publish.value.message
        && e.child.publish.value.at <= at <= e.DrainTime(i)
        && (e.PublishedBy(e.PollEnd(i)) || By(e.child.exit, e.CheckTime(i)))
      case FoundDead(at) =>
        at == e.DrainTime(i) && By(e.child.exit, e.CheckTime(i)) && !e.PublishedBy(e.DrainTime(i))
      case _ => !e.PublishedBy(e.PollEnd(i)) && !By(e.child.exit, e.CheckTime(i))
  {
    var t := e.turns(i);
    assert e.PollEnd(i) <= e.CheckTime(i) <= e.DrainTime(i);
    assert e.PollStart(i) <= e.PollEnd(i);
  }

  lemma EarlierTurnsHarmless<V>(e: Env<V>, n: nat)
    requires e.EndsAt(n)
    ensures forall j: nat | j < n ::
      Harmless(e.policy, e.turns(j).probe) && !e.PublishedBy(e.PollEnd(j)) && !By(e.child.exit, e.CheckTime(j))
  {
    forall j: nat | j < n
      ensures Harmless(e.policy, e.turns(j).probe) && !e.PublishedBy(e.PollEnd(j)) && !By(e.child.exit, e.CheckTime(j))
    {
      assert e.TurnExit(j).Continues?;
      if e.turns(j).probe.Sampled? {
        EvaluateIsMostSevere(e.policy, e.turns(j).probe.sample);
      }
    }
  }

  /**
    A fallback reports the first probe that was not harmless: its sample with
    the most severe reason that applies, or its error if errors count. No message was
    visible when the last poll ended, and the child was alive.
   */
  lemma FallbackIsSound<V>(e: Env<V>, n: nat, r: Report<V>)
    requires IsRun(e, n, r) && r.outcome.Returned? && r.outcome.result.fallbackTriggered
    ensures forall j: nat | j < n :: Harmless(e.policy, e.turns(j).probe)
    ensures !e.PublishedBy(e.PollEnd(n)) && !By(e.child.exit, e.CheckTime(n))
    ensures !r.outcome.result.completed && r.outcome.result.returnValue.None?
    ensures
      match e.turns(n).probe
      case Sampled(s) =>
        && r.outcome.result.fallbackReason.Some? && IsMostSevere(e.policy, s, r.outcome.result.fallbackReason.value)
        && r.outcome.result.violationTelemetry == Some(s) && r.outcome.result.exception.None?
      case Failed(text) =>
        && e.policy.failSafe && r.outcome.result.fallbackReason == Some(TelemetryError)
        && r.outcome.result.violationTelemetry == Some(Sample(PosInf, 0, false))
        && r.outcome.result.exception == Some(ProbeFailed(text))
      case Aborted => false
  {
    EarlierTurnsHarmless(e, n);
    if e.turns(n).probe.Sampled? {
      EvaluateIsMostSevere(e.policy, e.turns(n).probe.sample);
    }
  }

  /** A result has both a fallback and an exception exactly if the telemetry failed. */
  lemma FallbackWithException<V>(e: Env<V>, n: nat, r: Report<V>)
    requires IsRun(e, n, r) && r.outcome.Returned?
    ensures var x := r.outcome.result;
      x.fallbackTriggered && x.exception.Some? <==> x.fallbackReason == Some(TelemetryError)
  {
    match e.turns(n).probe
    case Sampled(s) =>
    case _ =>
  }

  /** raise_if_error(): what it raises. */
  function RaiseIfError<V>(r: ProtectedRunResult<V>): Option<RunError> { r.exception }

  /** What its documentation says: only the error of a completed child, and nothing after a fallback. */
  function DocumentedRaise<V>(r: ProtectedRunResult<V>): Option<RunError> {
    if r.completed then r.exception else None
  }

  /** Without a fallback, the message is returned exactly if it is visible by the end of the last bounded wait. */
  lemma NoResultLost<V>(e: Env<V>, n: nat, r: Report<V>)
    requires IsRun(e, n, r) && r.outcome.Returned? && !r.outcome.result.fallbackTriggered
    ensures r.outcome.result ==
      MessageResult(if e.PublishedBy(e.DrainTime(n) + e.grace) then Some(e.child.publish.value.message) else None)
    ensures e.PublishedBy(e.PollEnd(n)) || By(e.child.exit, e.CheckTime(n))
  {
    var t := e.turns(n);
    assert e.PollEnd(n) <= e.DrainTime(n) + e.grace;
  }

  /** The two agree except after a telemetry failure and after a child that left no result. */
  lemma RaiseMatchesDocumentationIff<V>(e: Env<V>, n: nat, r: Report<V>)
    requires IsRun(e, n, r) && r.outcome.Returned?
    ensures var x := r.outcome.result;
      RaiseIfError(x) == DocumentedRaise(x) <==>
        x.completed || (x.fallbackTriggered && x.fallbackReason != Some(TelemetryError))
  {
    FallbackWithException(e, n, r);
    if !r.outcome.result.fallbackTriggered {
      NoResultLost(e, n, r);
    }
  }

  /** A first probe that fails, when failures count, makes a fallback raise. */
  lemma FallbackCanRaise<V>(e: Env<V>, text: string)
    requires e.Valid() && e.policy.failSafe && e.turns(0).probe == Failed(text)
    requires !e.PublishedBy(e.PollEnd(0)) && !By(e.child.exit, e.CheckTime(0))
    ensures e.EndsAt(0)
    ensures var x := OutcomeOf(e, e.TurnExit(0));
      x.Returned? && x.result.fallbackTriggered && RaiseIfError(x.result) == Some(ProbeFailed(text))
      && RaiseIfError(x.result) != DocumentedRaise(x.result)
  {
    assert e.TurnExit(0) == FellBack(TelemetryError, Sample(PosInf, 0, false), Some(text), e.ProbeEnd(0));
  }

  /** A child that exits during the first poll and never publishes makes a run without a fallback raise. */
  lemma MissingResultRaises<V>(e: Env<V>)
    requires e.Valid() && e.child.publish.None? && By(e.child.exit, e.CheckTime(0))
    ensures e.EndsAt(0)
    ensures var x := OutcomeOf(e, e.TurnExit(0));
      x.Returned? && !x.result.completed && !x.result.fallbackTriggered && RaiseIfError(x.result) == Some(NoResult)
      && RaiseIfError(x.result) != DocumentedRaise(x.result)
  {
    assert e.TurnExit(0) == FoundDead(e.DrainTime(0));
  }

  /**
    End to end: if the child publishes before it exits and no fallback or
    foreign exception came first, run() reports how the target ended.
   */
  lemma TargetOutcomeReported<V>(e: Env<V>, n: nat, r: Report<V>, outcome: TargetOutcome<V>)
    requires IsRun(e, n, r) && r.outcome.Returned? && !r.outcome.result.fallbackTriggered
    requires e.child.publish.Some? && ChildEntrypoint(outcome) == Some(e.child.publish.value.message)
    requires e.child.exit.Some? ==> e.child.publish.value.at <= e.child.exit.value
    ensures
      r.outcome.result.completed &&
      match outcome
      case Returns(value, true) => r.outcome.result.returnValue == Some(value) && r.outcome.result.exception.None?
      case Returns(value, false) =>
        r.outcome.result.returnValue.None? && r.outcome.result.exception.Some? &&
        r.outcome.result.exception.value.GuardedProcessError? &&
        r.outcome.result.exception.value.typeName == "PicklingError"
      case Raises(typeName, text) =>
        r.outcome.result.returnValue.None? && r.outcome.result.exception == Some(GuardedProcessError(typeName, text))
      case Dies => false
  {
    NoResultLost(e, n, r);
    var t := e.turns(n);
    assert e.PublishedBy(e.DrainTime(n) + e.grace);
  }

  /** A child whose run is decided is killed only after it had its grace period, and never if that suffices. */
  lemma GracePeriodIsGranted<V>(e: Env<V>, n: nat, r: Report<V>)
    requires IsRun(e, n, r) && r.outcome.Returned?
    ensures r.sigkill.Some? ==> r.sigterm.Some? && r.sigkill.value == r.sigterm.value + e.grace
    ensures r.sigkill.Some? ==> !By(e.child.termDelay, e.grace) && !By(e.child.exit, r.sigkill.value)
    ensures r.sigterm.Some? ==> !By(e.child.exit, r.sigterm.value)
    ensures r.sigterm.None? ==> By(e.child.exit, r.finishedAt)
  {
  }

  // ---------------------------------------------------------------------
  // Termination and reclamation
  // ---------------------------------------------------------------------

  /** The child has published or exited by time d. */
  predicate SettledBy<V>(e: Env<V>, d: real) {
    e.PublishedBy(d) || By(e.child.exit, d)
  }

  /** No turn lags by more than lag in the loop's own steps, and no probe takes longer than probe. */
  ghost predicate Prompt<V>(e: Env<V>, lag: real, probe: real) {
    forall i: nat :: e.turns(i).checkLag + e.turns(i).drainLag <= lag && e.turns(i).probeTime <= probe
  }

  lemma OneMorePoll(n: nat, p: real)
    ensures (n + 1) as real * p == n as real * p + p
  {
  }

  /** A turn that goes on hands over to the next poll when its probe has ended. */
  lemma NextPollFollowsProbe<V>(e: Env<V>, i: nat)
    ensures e.PollStart(i + 1) == e.PollStart(i) + e.policy.pollInterval + e.turns(i).checkLag + e.turns(i).probeTime
    ensures e.PollStart(i + 1) == e.ProbeEnd(i)
  {
  }

  lemma {:induction false} PollsTakeTime<V>(e: Env<V>, i: nat)
    requires e.Valid()
    ensures e.PollStart(i) >= i as real * e.policy.pollInterval
  {
    if i > 0 {
      PollsTakeTime(e, i - 1);
      var t := e.turns(i - 1);
      OneMorePoll(i - 1, e.policy.pollInterval);
    }
  }

  /** A poll after which the loop goes on ended before the child settled. */
  lemma ContinuesOnlyBefore<V>(e: Env<V>, d: real, i: nat)
    requires e.Valid() && SettledBy(e, d) && !e.PublishedBy(e.PollEnd(i)) && !By(e.child.exit, e.CheckTime(i))
    ensures e.PollEnd(i) < d
    ensures (i + 1) as real * e.policy.pollInterval < d
  {
    var t := e.turns(i);
    PollsTakeTime(e, i);
    OneMorePoll(i, e.policy.pollInterval);
  }

  lemma {:induction false} FirstEnd<V>(e: Env<V>, m: nat) returns (n: nat)
    requires !e.TurnExit(m).Continues?
    ensures n <= m && e.EndsAt(n)
  {
    n := m;
    if j: nat :| j < m && !e.TurnExit(j).Continues? {
      n := FirstEnd(e, j);
    }
  }

  /** A child that settles ends the loop, at the latest in the turn whose number is d / p rounded up. */
  lemma LoopEnds<V>(e: Env<V>, d: real, horizon: nat) returns (n: nat)
    requires e.Valid() && SettledBy(e, d) && horizon > 0 && d <= horizon as real * e.policy.pollInterval
    ensures n < horizon && e.EndsAt(n)
  {
    if e.TurnExit(horizon - 1).Continues? {
      ContinuesOnlyBefore(e, d, horizon - 1);
    }
    n := FirstEnd(e, horizon - 1);
  }

  lemma TurnsBounded<V>(e: Env<V>, n: nat, d: real)
    requires e.Valid() && e.EndsAt(n) && d >= 0.0 && SettledBy(e, d)
    ensures n as real * e.policy.pollInterval <= d
  {
    if n > 0 {
      EarlierTurnsHarmless(e, n);
      ContinuesOnlyBefore(e, d, n - 1);
    }
  }

  /** At most d / p + 1 polls time out. */
  lemma PollsBounded<V>(e: Env<V>, n: nat, r: Report<V>, d: real)
    requires IsRun(e, n, r) && d >= 0.0 && SettledBy(e, d)
    ensures r.polls as real * e.policy.pollInterval <= d + e.policy.pollInterval
  {
    TurnsBounded(e, n, d);
    OneMorePoll(n, e.policy.pollInterval);
  }

  lemma LastPollStart<V>(e: Env<V>, n: nat, d: real, lag: real, probe: real)
    requires e.Valid() && e.EndsAt(n) && d >= 0.0 && SettledBy(e, d) && Prompt(e, lag, probe)
    ensures e.PollStart(n) <= d + lag + probe
    ensures lag >= 0.0 && probe >= 0.0
  {
    var t := e.turns(n);
    if n > 0 {
      EarlierTurnsHarmless(e, n);
      ContinuesOnlyBefore(e, d, n - 1);
      var u := e.turns(n - 1);
    }
  }

  /**
    run() is back by d + p + t + 2g, plus twice the lag of the loop's own
    steps, and then the child is dead or SIGKILL was sent.
   */
  lemma TimeBounded<V>(e: Env<V>, n: nat, r: Report<V>, d: real, lag: real, probe: real)
    requires IsRun(e, n, r) && d >= 0.0 && SettledBy(e, d) && Prompt(e, lag, probe)
    requires e.child.killDelay <= e.grace
    ensures r.finishedAt <= d + e.policy.pollInterval + probe + 2.0 * lag + 2.0 * e.grace
    ensures r.gone
  {
    LastPollStart(e, n, d, lag, probe);
    var t := e.turns(n);
    if !e.PublishedBy(e.PollEnd(n)) && !By(e.child.exit, e.CheckTime(n)) {
      ContinuesOnlyBefore(e, d, n);
    }
  }
}
