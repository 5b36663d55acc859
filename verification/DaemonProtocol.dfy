/**
  The daemon as a system of interleaved steps: main's loop
  (src/daemon/watchdogd_main.c), every watchdog thread it ever spawned
  (src/daemon/sandbox_watchdog.c), the shutdown handler, and the delivery of
  the fallback signal to main.

  The fallback flag, the jump buffer and watchdog_keep_running are single
  cells: each turn of the loop reuses them, and so does a watchdog that
  outlives its turn. The model ends where main leaves its loop.
 */
module DaemonProtocol {
  import opened Wrappers
  import opened Telemetry

  /** What main does next. */
  datatype MainPc =
    | Testing        // the loop condition
    | Installing     // the signal handler
    | SettingJump    // the direct return of sigsetjmp
    | Spawning       // the watchdog thread
    | Serving        // inside the telemetry server
    | Returned       // the server came back: ask the watchdog to stop
    | CoolingDown    // the return of sigsetjmp by way of siglongjmp
    | Left           // out of the loop
    | Crashed        // a signal without handler, or a jump to nowhere

  /** What a watchdog thread does next. */
  datatype Watchdog = Checking | Polling | Flagging | Killing | Done(signalled: bool)

  datatype State = State(
    main: MainPc,
    keepRunning: bool,
    watchdogKeepRunning: bool,
    violationFlag: bool,
    installed: bool,
    armed: bool,
    jumpPoint: Option<nat>,   // the turn of the loop in which it was set
    turn: nat,
    watchdogs: seq<Watchdog>, // all ever spawned, oldest first
    pending: bool,            // the fallback signal; a second one would merge with it
    kills: nat,               // calls of pthread_kill so far
    jumps: nat)               // calls of siglongjmp so far

  const INITIAL: State := State(Testing, true, false, false, false, false, None, 0, [], false, 0, 0)

  datatype Action =
    | Test | Install | SetJump | Spawn(ok: bool) | ServerReturns | ServerGivesUp | StopWatchdog | WakeUp
    | Shutdown
    | WatchdogTest(i: nat) | WatchdogPoll(i: nat, sample: Sample) | WatchdogFlag(i: nat) | WatchdogKill(i: nat)
    | Deliver

  predicate IsWatchdogAt(s: State, i: nat, w: Watchdog) { i < |s.watchdogs| && s.watchdogs[i] == w }

  /**
    ServerReturns is the server noticing the shutdown. ServerGivesUp is its
    early return after a socket error, which main does not expect.
   */
  predicate Enabled(s: State, a: Action) {
    match a
    case Test => s.main == Testing
    case Install => s.main == Installing
    case SetJump => s.main == SettingJump
    case Spawn(_) => s.main == Spawning
    case ServerReturns => s.main == Serving && !s.keepRunning
    case ServerGivesUp => s.main == Serving && s.keepRunning
    case StopWatchdog => s.main == Returned
    case WakeUp => s.main == CoolingDown
    case Shutdown => true
    case WatchdogTest(i) => IsWatchdogAt(s, i, Checking)
    case WatchdogPoll(i, _) => IsWatchdogAt(s, i, Polling)
    case WatchdogFlag(i) => IsWatchdogAt(s, i, Flagging)
    case WatchdogKill(i) => IsWatchdogAt(s, i, Killing)
    case Deliver => s.pending && s.main != Left && s.main != Crashed
  }

  function Apply(s: State, a: Action): State
    requires Enabled(s, a)
  {
    match a
    case Test =>
      if s.keepRunning then s.(main := Installing, violationFlag := false, turn := s.turn + 1)
      else s.(main := Left)
    case Install => s.(main := SettingJump, installed := true, armed := true)
    case SetJump => s.(main := Spawning, jumpPoint := Some(s.turn))
    case Spawn(ok) =>
      if ok then s.(main := Serving, watchdogKeepRunning := true, watchdogs := s.watchdogs + [Checking])
      else s.(main := Left, watchdogKeepRunning := true)
    case ServerReturns => s.(main := Returned)
    case ServerGivesUp => s.(main := Returned)
    case StopWatchdog => s.(main := Testing, watchdogKeepRunning := false)
    case WakeUp => s.(main := Testing)
    case Shutdown => s.(keepRunning := false)
    case WatchdogTest(i) =>
      s.(watchdogs := s.watchdogs[i := if s.watchdogKeepRunning then Polling else Done(false)])
    case WatchdogPoll(i, sample) =>
      s.(watchdogs := s.watchdogs[i := if Violated(sample) then Flagging else Checking])
    case WatchdogFlag(i) => s.(watchdogs := s.watchdogs[i := Killing], violationFlag := true)
    case WatchdogKill(i) => s.(watchdogs := s.watchdogs[i := Done(true)], pending := true, kills := s.kills + 1)
    case Deliver =>
      if !s.installed || (s.armed && s.jumpPoint.None?) then s.(main := Crashed, pending := false)
      else if !s.armed then s.(pending := false)
      else s.(main := CoolingDown, pending := false, jumps := s.jumps + 1)
  }

  predicate CanRun(s: State, actions: seq<Action>)
    decreases |actions|
  {
    actions == [] || (Enabled(s, actions[0]) && CanRun(Apply(s, actions[0]), actions[1..]))
  }

  function Run(s: State, actions: seq<Action>): State
    requires CanRun(s, actions)
    decreases |actions|
  {
    if actions == [] then s else Run(Apply(s, actions[0]), actions[1..])
  }

  // ---------------------------------------------------------------------
  // What every step keeps
  // ---------------------------------------------------------------------

  function Count(watchdogs: seq<Watchdog>, p: Watchdog -> bool): nat {
    if watchdogs == [] then 0
    else Count(watchdogs[..|watchdogs| - 1], p) + if p(watchdogs[|watchdogs| - 1]) then 1 else 0
  }

  function Alive(): Watchdog -> bool { (w: Watchdog) => !w.Done? }

  function Signalled(): Watchdog -> bool { (w: Watchdog) => w.Done? && w.signalled }

  /** The signals that can still reach main: one per live watchdog, and one that is on its way. */
  function Sources(s: State): nat {
    Count(s.watchdogs, Alive()) + if s.pending then 1 else 0
  }

  /** The fallback is armed, with a jump point of this turn of main's loop. */
  predicate Ready(s: State) {
    s.installed && s.armed && s.jumpPoint == Some(s.turn)
  }

  predicate SourcesFit(s: State) {
    match s.main
    case Testing => Sources(s) == 0 || (Sources(s) == 1 && !s.keepRunning && Ready(s))
    case Installing => Sources(s) == 0
    case SettingJump => Sources(s) == 0 && s.installed && s.armed
    case Spawning => Sources(s) == 0 && Ready(s)
    case Serving => Sources(s) == 1 && Ready(s) && s.watchdogKeepRunning
    case Returned => Sources(s) == 1 && Ready(s) && s.watchdogKeepRunning && !s.keepRunning
    case CoolingDown => Sources(s) == 0 && Ready(s) && s.violationFlag
    case Left => Sources(s) <= 1
    case Crashed => false
  }

  ghost predicate Inv(s: State) {
    && SourcesFit(s)
    && s.kills == s.jumps + (if s.pending then 1 else 0)
    && s.kills == Count(s.watchdogs, Signalled())
    && |s.watchdogs| <= s.turn
    && (s.main in {Installing, SettingJump, Spawning} ==> |s.watchdogs| < s.turn)
    && (s.pending ==> s.violationFlag)
    && (forall i | 0 <= i < |s.watchdogs| && s.watchdogs[i] == Killing :: s.violationFlag)
  }

  lemma {:induction false} CountUpdate(ws: seq<Watchdog>, i: nat, w: Watchdog, p: Watchdog -> bool)
    requires i < |ws|
    ensures Count(ws[i := w], p) == Count(ws, p) - (if p(ws[i]) then 1 else 0) + (if p(w) then 1 else 0)
  {
    var last := |ws| - 1;
    if i < last {
      CountUpdate(ws[..last], i, w, p);
      assert ws[i := w][..last] == ws[..last][i := w];
    } else {
      assert ws[i := w][..last] == ws[..last];
    }
  }

  lemma CountAppend(ws: seq<Watchdog>, w: Watchdog, p: Watchdog -> bool)
    ensures Count(ws + [w], p) == Count(ws, p) + if p(w) then 1 else 0
  {
    assert (ws + [w])[..|ws|] == ws;
  }

  lemma {:induction false} CountBounded(ws: seq<Watchdog>, p: Watchdog -> bool)
    ensures Count(ws, p) <= |ws|
  {
    if ws != [] {
      CountBounded(ws[..|ws| - 1], p);
    }
  }

  lemma {:induction false} NoneCounted(ws: seq<Watchdog>, i: nat, p: Watchdog -> bool)
    requires Count(ws, p) == 0 && i < |ws|
    ensures !p(ws[i])
  {
    if i < |ws| - 1 {
      NoneCounted(ws[..|ws| - 1], i, p);
    }
  }

  predicate IsWatchdogStep(a: Action) { a.WatchdogTest? || a.WatchdogPoll? || a.WatchdogFlag? || a.WatchdogKill? }

  lemma UpdateCounts(ws: seq<Watchdog>, i: nat, w: Watchdog)
    requires i < |ws| && !ws[i].Done?
    ensures Count(ws[i := w], Alive()) == Count(ws, Alive()) - (if w.Done? then 1 else 0)
    ensures Count(ws[i := w], Signalled()) == Count(ws, Signalled()) + (if w == Done(true) then 1 else 0)
  {
    CountUpdate(ws, i, w, Alive());
    CountUpdate(ws, i, w, Signalled());
  }

  /** A watchdog's step moves a signal source on, or removes it when the watchdog was told to stop. */
  lemma WatchdogStepCounts(s: State, a: Action)
    requires Enabled(s, a) && IsWatchdogStep(a)
    ensures
      var s' := Apply(s, a);
      && Sources(s') == (if a.WatchdogTest? && !s.watchdogKeepRunning then Sources(s) - 1
                         else if a.WatchdogKill? && s.pending then Sources(s) - 1 else Sources(s))
      && Count(s'.watchdogs, Signalled()) == Count(s.watchdogs, Signalled()) + (if a.WatchdogKill? then 1 else 0)
  {
    match a
    case WatchdogTest(i) => UpdateCounts(s.watchdogs, i, if s.watchdogKeepRunning then Polling else Done(false));
    case WatchdogPoll(i, sample) => UpdateCounts(s.watchdogs, i, if Violated(sample) then Flagging else Checking);
    case WatchdogFlag(i) => UpdateCounts(s.watchdogs, i, Killing);
    case WatchdogKill(i) => UpdateCounts(s.watchdogs, i, Done(true));
  }

  /** The signal on its way and the watchdog about to send one are never two. */
  lemma KillerIsOnlySource(s: State, i: nat)
    requires Sources(s) <= 1 && i < |s.watchdogs| && !s.watchdogs[i].Done?
    ensures !s.pending && Sources(s) == 1
  {
    if Count(s.watchdogs, Alive()) == 0 {
      NoneCounted(s.watchdogs, i, Alive());
    }
  }

  lemma WatchdogStepKeepsInv(s: State, a: Action)
    requires Inv(s) && Enabled(s, a) && IsWatchdogStep(a)
    ensures Inv(Apply(s, a))
  {
    WatchdogStepCounts(s, a);
    KillerIsOnlySource(s, a.i);
    var s' := Apply(s, a);
    assert s'.main == s.main && s'.keepRunning == s.keepRunning && s'.watchdogKeepRunning == s.watchdogKeepRunning;
    forall j | 0 <= j < |s'.watchdogs| && s'.watchdogs[j] == Killing ensures s'.violationFlag {
      assert j == a.i || s'.watchdogs[j] == s.watchdogs[j];
    }
  }

  lemma TestKeepsInv(s: State)
    requires Inv(s) && s.main == Testing
    ensures Inv(Apply(s, Test))
  {
    if Sources(s) == 0 {
      forall i | 0 <= i < |s.watchdogs| ensures s.watchdogs[i] != Killing {
        NoneCounted(s.watchdogs, i, Alive());
      }
    }
  }

  lemma SpawnKeepsInv(s: State, ok: bool)
    requires Inv(s) && s.main == Spawning
    ensures Inv(Apply(s, Spawn(ok)))
  {
    CountAppend(s.watchdogs, Checking, Alive());
    CountAppend(s.watchdogs, Checking, Signalled());
  }

  /** Every step but the server's early return keeps the invariant. */
  lemma StepKeepsInv(s: State, a: Action)
    requires Inv(s) && Enabled(s, a) && a != ServerGivesUp
    ensures Inv(Apply(s, a))
  {
    if IsWatchdogStep(a) {
      WatchdogStepKeepsInv(s, a);
    } else if a.Spawn? {
      SpawnKeepsInv(s, a.ok);
    } else if a.Test? {
      TestKeepsInv(s);
    }
  }

  lemma {:induction false} RunKeepsInv(s: State, actions: seq<Action>)
    requires Inv(s) && CanRun(s, actions) && ServerGivesUp !in actions
    ensures Inv(Run(s, actions))
    decreases |actions|
  {
    if actions != [] {
      StepKeepsInv(s, actions[0]);
      RunKeepsInv(Apply(s, actions[0]), actions[1..]);
    }
  }

  // ---------------------------------------------------------------------
  // Safety over all runs
  // ---------------------------------------------------------------------

  /**
    In every interleaving in which the server comes back only after a
    shutdown: at most one signal can still reach main, none while it cools
    down, main never crashes, and every kill either led to a jump or is the
    one signal on its way.
   */
  lemma DaemonSafety(actions: seq<Action>)
    requires CanRun(INITIAL, actions) && ServerGivesUp !in actions
    ensures
      var s := Run(INITIAL, actions);
      && Sources(s) <= 1
      && (s.main == CoolingDown ==> Sources(s) == 0 && s.violationFlag)
      && s.main != Crashed
      && s.kills == s.jumps + (if s.pending then 1 else 0)
      && s.kills == Count(s.watchdogs, Signalled()) <= |s.watchdogs| <= s.turn
  {
    assert Inv(INITIAL);
    RunKeepsInv(INITIAL, actions);
    CountBounded(Run(INITIAL, actions).watchdogs, Signalled());
  }

  /**
    Every signal that reaches main inside the loop finds the fallback armed
    with a jump point of the present turn, and takes main to the cooldown of a
    flagged violation.
   */
  lemma EverySignalJumps(actions: seq<Action>)
    requires CanRun(INITIAL, actions) && ServerGivesUp !in actions
    requires Enabled(Run(INITIAL, actions), Deliver)
    ensures
      var s := Run(INITIAL, actions);
      && Ready(s) && s.violationFlag
      && (s.main == Serving || !s.keepRunning)
      && Apply(s, Deliver).main == CoolingDown
      && Sources(Apply(s, Deliver)) == 0
  {
    assert Inv(INITIAL);
    RunKeepsInv(INITIAL, actions);
  }

  // ---------------------------------------------------------------------
  // What the signals mean
  // ---------------------------------------------------------------------

  /** This watchdog has polled its violation: it is about to signal, or has signalled. */
  predicate HasFired(w: Watchdog) { w.Flagging? || w.Killing? || w == Done(true) }

  function Fired(): Watchdog -> bool { (w: Watchdog) => HasFired(w) }

  predicate IsViolatingPoll(a: Action) { a.WatchdogPoll? && Violated(a.sample) }

  /** The polls of a run that read a violating sample. */
  function ViolatingPolls(actions: seq<Action>): nat
    decreases |actions|
  {
    if actions == [] then 0 else ViolatingPolls(actions[1..]) + if IsViolatingPoll(actions[0]) then 1 else 0
  }

  function ViolatingPollsOf(actions: seq<Action>, i: nat): nat
    decreases |actions|
  {
    if actions == [] then 0
    else ViolatingPollsOf(actions[1..], i) + if IsViolatingPoll(actions[0]) && actions[0].i == i then 1 else 0
  }

  function FiredAt(s: State, i: nat): nat {
    if i < |s.watchdogs| && HasFired(s.watchdogs[i]) then 1 else 0
  }

  /** What the step of a watchdog makes of it. */
  lemma WatchdogMoves(s: State, a: Action)
    requires Enabled(s, a) && IsWatchdogStep(a)
    ensures a.i < |s.watchdogs| && |Apply(s, a).watchdogs| == |s.watchdogs|
    ensures Apply(s, a).watchdogs == s.watchdogs[a.i := Apply(s, a).watchdogs[a.i]]
    ensures HasFired(Apply(s, a).watchdogs[a.i]) <==> HasFired(s.watchdogs[a.i]) || IsViolatingPoll(a)
    ensures IsViolatingPoll(a) ==> !HasFired(s.watchdogs[a.i])
  {
  }

  lemma OthersStay(s: State, a: Action)
    requires Enabled(s, a) && !IsWatchdogStep(a)
    ensures Apply(s, a).watchdogs == s.watchdogs || Apply(s, a).watchdogs == s.watchdogs + [Checking]
  {
    match a
    case Test =>
    case Install =>
    case SetJump =>
    case Spawn(_) =>
    case ServerReturns =>
    case ServerGivesUp =>
    case StopWatchdog =>
    case WakeUp =>
    case Shutdown =>
    case Deliver =>
  }

  lemma StepFires(s: State, a: Action)
    requires Enabled(s, a)
    ensures Count(Apply(s, a).watchdogs, Fired()) == Count(s.watchdogs, Fired()) + if IsViolatingPoll(a) then 1 else 0
  {
    if IsWatchdogStep(a) {
      WatchdogMoves(s, a);
      CountUpdate(s.watchdogs, a.i, Apply(s, a).watchdogs[a.i], Fired());
    } else {
      OthersStay(s, a);
      CountAppend(s.watchdogs, Checking, Fired());
    }
  }

  lemma StepFiresAt(s: State, a: Action, i: nat)
    requires Enabled(s, a)
    ensures FiredAt(Apply(s, a), i) == FiredAt(s, i) + if IsViolatingPoll(a) && a.i == i then 1 else 0
  {
    if IsWatchdogStep(a) {
      WatchdogMoves(s, a);
    } else {
      OthersStay(s, a);
    }
  }

  /** In every run, with or without early returns, the watchdogs that fired are the polls that read a violation. */
  lemma {:induction false} FiringsAreViolations(s: State, actions: seq<Action>)
    requires CanRun(s, actions)
    ensures Count(Run(s, actions).watchdogs, Fired()) == Count(s.watchdogs, Fired()) + ViolatingPolls(actions)
    decreases |actions|
  {
    if actions != [] {
      StepFires(s, actions[0]);
      FiringsAreViolations(Apply(s, actions[0]), actions[1..]);
    }
  }

  /** Each watchdog polls at most one violation, and has fired exactly if it did. */
  lemma {:induction false} FiresAtItsViolation(s: State, actions: seq<Action>, i: nat)
    requires CanRun(s, actions)
    ensures FiredAt(Run(s, actions), i) == FiredAt(s, i) + ViolatingPollsOf(actions, i)
    decreases |actions|
  {
    if actions != [] {
      StepFiresAt(s, actions[0], i);
      FiresAtItsViolation(Apply(s, actions[0]), actions[1..], i);
    }
  }

  lemma StepAddsKill(s: State, a: Action)
    requires Enabled(s, a)
    ensures Apply(s, a).kills == s.kills + if a.WatchdogKill? then 1 else 0
  {
    match a
    case Test =>
    case Install =>
    case SetJump =>
    case Spawn(_) =>
    case ServerReturns =>
    case ServerGivesUp =>
    case StopWatchdog =>
    case WakeUp =>
    case Shutdown =>
    case WatchdogTest(_) =>
    case WatchdogPoll(_, _) =>
    case WatchdogFlag(_) =>
    case WatchdogKill(_) =>
    case Deliver =>
  }

  lemma StepKills(s: State, a: Action)
    requires Enabled(s, a)
    ensures Apply(s, a).kills - s.kills == Count(Apply(s, a).watchdogs, Signalled()) - Count(s.watchdogs, Signalled())
  {
    StepAddsKill(s, a);
    if IsWatchdogStep(a) {
      WatchdogStepCounts(s, a);
    } else {
      OthersStay(s, a);
      CountAppend(s.watchdogs, Checking, Signalled());
    }
  }

  lemma {:induction false} KillsAreSignallers(s: State, actions: seq<Action>)
    requires CanRun(s, actions)
    ensures Run(s, actions).kills - s.kills
      == Count(Run(s, actions).watchdogs, Signalled()) - Count(s.watchdogs, Signalled())
    decreases |actions|
  {
    if actions != [] {
      StepKills(s, actions[0]);
      KillsAreSignallers(Apply(s, actions[0]), actions[1..]);
    }
  }

  lemma {:induction false} SignalledHaveFired(ws: seq<Watchdog>)
    ensures Count(ws, Signalled()) <= Count(ws, Fired())
  {
    if ws != [] {
      SignalledHaveFired(ws[..|ws| - 1]);
    }
  }

  /** No signal without a violation: the kills never exceed the polls that read one. */
  lemma KillsNeverExceedViolations(actions: seq<Action>)
    requires CanRun(INITIAL, actions)
    ensures Run(INITIAL, actions).kills <= ViolatingPolls(actions)
  {
    FiringsAreViolations(INITIAL, actions);
    KillsAreSignallers(INITIAL, actions);
    SignalledHaveFired(Run(INITIAL, actions).watchdogs);
  }

  /** The handler jumps exactly if it is armed, and otherwise leaves main alone. */
  lemma HandlerJumpsIffArmed(s: State)
    requires Enabled(s, Deliver) && s.installed && s.jumpPoint.Some?
    ensures s.armed ==> Apply(s, Deliver).main == CoolingDown && Apply(s, Deliver).jumps == s.jumps + 1
    ensures !s.armed ==> Apply(s, Deliver) == s.(pending := false)
  {
  }

  lemma StepLowersFlag(s: State, a: Action)
    requires Enabled(s, a)
    ensures Apply(s, a).keepRunning <==> s.keepRunning && a != Shutdown
  {
    match a
    case Test =>
    case Install =>
    case SetJump =>
    case Spawn(_) =>
    case ServerReturns =>
    case ServerGivesUp =>
    case StopWatchdog =>
    case WakeUp =>
    case Shutdown =>
    case WatchdogTest(_) =>
    case WatchdogPoll(_, _) =>
    case WatchdogFlag(_) =>
    case WatchdogKill(_) =>
    case Deliver =>
  }

  /** The flag is lowered by the shutdown handler only. */
  lemma {:induction false} FlagMeansShutdown(s: State, actions: seq<Action>)
    requires CanRun(s, actions)
    ensures Run(s, actions).keepRunning <==> s.keepRunning && Shutdown !in actions
    decreases |actions|
  {
    if actions != [] {
      StepLowersFlag(s, actions[0]);
      FlagMeansShutdown(Apply(s, actions[0]), actions[1..]);
    }
  }

  lemma StepLeaves(s: State, a: Action)
    requires Enabled(s, a)
    ensures Apply(s, a).main == Left <==> s.main == Left || a == Spawn(false) || (a == Test && !s.keepRunning)
  {
    match a
    case Test =>
    case Install =>
    case SetJump =>
    case Spawn(_) =>
    case ServerReturns =>
    case ServerGivesUp =>
    case StopWatchdog =>
    case WakeUp =>
    case Shutdown =>
    case WatchdogTest(_) =>
    case WatchdogPoll(_, _) =>
    case WatchdogFlag(_) =>
    case WatchdogKill(_) =>
    case Deliver =>
  }

  /** Main leaves its loop after a shutdown or at a watchdog that cannot be started, and at the latter at once. */
  lemma {:induction false} LeavesOnlyThen(s: State, actions: seq<Action>)
    requires CanRun(s, actions)
    ensures Run(s, actions).main == Left ==> s.main == Left || Spawn(false) in actions || !Run(s, actions).keepRunning
    ensures Spawn(false) in actions || s.main == Left ==> Run(s, actions).main == Left
    decreases |actions|
  {
    if actions != [] {
      StepLeaves(s, actions[0]);
      LeavesOnlyThen(Apply(s, actions[0]), actions[1..]);
      FlagMeansShutdown(Apply(s, actions[0]), actions[1..]);
    }
  }

  // ---------------------------------------------------------------------
  // The early return of the server
  // ---------------------------------------------------------------------

  const REARM: seq<Action> := [Install] + ([SetJump] + [Spawn(true)])
  const NEXT_TURN: seq<Action> := [Test] + REARM
  const RESTART: seq<Action> := [ServerGivesUp] + ([StopWatchdog] + NEXT_TURN)

  lemma OneStep(s: State, a: Action)
    requires Enabled(s, a)
    ensures CanRun(s, [a]) && Run(s, [a]) == Apply(s, a)
  {
    assert [a][1..] == [];
  }

  lemma StepThen(s: State, a: Action, rest: seq<Action>)
    requires Enabled(s, a) && CanRun(Apply(s, a), rest)
    ensures CanRun(s, [a] + rest) && Run(s, [a] + rest) == Run(Apply(s, a), rest)
  {
    assert ([a] + rest)[1..] == rest;
  }

  lemma RunRearm(s: State)
    requires s.main == Installing
    ensures CanRun(s, REARM)
    ensures Run(s, REARM) == s.(main := Serving, installed := true, armed := true, jumpPoint := Some(s.turn),
                                watchdogKeepRunning := true, watchdogs := s.watchdogs + [Checking])
  {
    var s1 := Apply(s, Install);
    var s2 := Apply(s1, SetJump);
    OneStep(s2, Spawn(true));
    StepThen(s1, SetJump, [Spawn(true)]);
    StepThen(s, Install, [SetJump] + [Spawn(true)]);
  }

  lemma RunNextTurn(s: State)
    requires s.main == Testing && s.keepRunning
    ensures CanRun(s, NEXT_TURN)
    ensures Run(s, NEXT_TURN) ==
      s.(main := Serving, violationFlag := false, turn := s.turn + 1, installed := true, armed := true,
         jumpPoint := Some(s.turn + 1), watchdogKeepRunning := true, watchdogs := s.watchdogs + [Checking])
  {
    RunRearm(Apply(s, Test));
    StepThen(s, Test, REARM);
  }

  lemma RunStopped(s: State)
    requires s.main == Returned && s.keepRunning
    ensures CanRun(s, [StopWatchdog] + NEXT_TURN)
    ensures Run(s, [StopWatchdog] + NEXT_TURN) ==
      s.(main := Serving, violationFlag := false, turn := s.turn + 1, installed := true, armed := true,
         jumpPoint := Some(s.turn + 1), watchdogKeepRunning := true, watchdogs := s.watchdogs + [Checking])
  {
    RunNextTurn(s.(main := Testing, watchdogKeepRunning := false));
    StepThen(s, StopWatchdog, NEXT_TURN);
  }

  lemma RunRestart(s: State)
    requires Enabled(s, ServerGivesUp)
    ensures CanRun(s, RESTART)
    ensures Run(s, RESTART) ==
      s.(violationFlag := false, turn := s.turn + 1, installed := true, armed := true,
         jumpPoint := Some(s.turn + 1), watchdogKeepRunning := true, watchdogs := s.watchdogs + [Checking])
  {
    RunStopped(s.(main := Returned));
    StepThen(s, ServerGivesUp, [StopWatchdog] + NEXT_TURN);
  }

  /**
    The assumption on the server is needed in every state in which it could
    fail: if main is serving and the server gives up, main's next steps alone
    lead to a second watchdog beside the first one, or beside its signal.
   */
  lemma EarlyReturnDoublesSources(s: State)
    requires Inv(s) && Enabled(s, ServerGivesUp)
    ensures CanRun(s, RESTART)
    ensures Sources(Run(s, RESTART)) == 2 && Run(s, RESTART).main == Serving
    ensures Run(s, RESTART).watchdogKeepRunning
  {
    var end := s.(violationFlag := false, turn := s.turn + 1, installed := true, armed := true,
                  jumpPoint := Some(s.turn + 1), watchdogKeepRunning := true, watchdogs := s.watchdogs + [Checking]);
    RunRestart(s);
    assert Run(s, RESTART) == end;
    CountAppend(s.watchdogs, Checking, Alive());
  }

  // ---------------------------------------------------------------------
  // Exactly when the daemon is safe
  // ---------------------------------------------------------------------

  lemma {:induction false} RunThen(s: State, first: seq<Action>, rest: seq<Action>)
    requires CanRun(s, first) && CanRun(Run(s, first), rest)
    ensures CanRun(s, first + rest) && Run(s, first + rest) == Run(Run(s, first), rest)
    decreases |first|
  {
    if first == [] {
      assert first + rest == rest;
    } else {
      RunThen(Apply(s, first[0]), first[1..], rest);
      assert (first + rest)[1..] == first[1..] + rest;
    }
  }

  /** The server can come to give up: right after the first turn was set up. */
  lemma GivingUpIsReachable()
    ensures CanRun(INITIAL, NEXT_TURN)
    ensures Inv(Run(INITIAL, NEXT_TURN)) && Enabled(Run(INITIAL, NEXT_TURN), ServerGivesUp)
  {
    RunNextTurn(INITIAL);
    assert Inv(INITIAL);
    RunKeepsInv(INITIAL, NEXT_TURN);
  }

  predicate InLoop(s: State) { !s.main.Left? && !s.main.Crashed? }

  /** main's own next step, where it is not the server that takes it. */
  function MainStep(s: State): (a: Action)
    requires InLoop(s) && s.main != Serving
    ensures Enabled(s, a)
  {
    match s.main
    case Returned => StopWatchdog
    case CoolingDown => WakeUp
    case Testing => Test
    case Installing => Install
    case SettingJump => SetJump
    case _ => Spawn(true)
  }

  function StepsToServer(main: MainPc): nat {
    match main
    case Returned => 5
    case CoolingDown => 5
    case Testing => 4
    case Installing => 3
    case SettingJump => 2
    case Spawning => 1
    case _ => 0
  }

  /** After a shutdown main's own steps and the return of the server lead out of the loop. */
  lemma {:induction false} ShutdownLeadsOut(s: State) returns (path: seq<Action>)
    requires InLoop(s) && !s.keepRunning
    ensures CanRun(s, path) && Run(s, path).main == Left
    decreases if s.main == Testing then 0 else if s.main == Returned || s.main == CoolingDown then 1
              else if s.main == Serving then 2 else 2 + StepsToServer(s.main)
  {
    var a := if s.main == Serving then ServerReturns else MainStep(s);
    if s.main == Testing {
      path := [a];
      OneStep(s, a);
    } else {
      var rest := ShutdownLeadsOut(Apply(s, a));
      StepThen(s, a, rest);
      path := [a] + rest;
    }
  }

  lemma MainStepKeepsSources(s: State)
    requires InLoop(s) && s.main != Serving
    ensures Sources(Apply(s, MainStep(s))) == Sources(s) + if s.main == Spawning then 1 else 0
  {
    if s.main == Spawning {
      CountAppend(s.watchdogs, Checking, Alive());
    } else {
      assert Apply(s, MainStep(s)).watchdogs == s.watchdogs;
    }
  }

  /** Before a shutdown main gets to the server from everywhere in its loop, and takes all signal sources along. */
  lemma {:induction false} ReachServer(s: State) returns (path: seq<Action>)
    requires InLoop(s) && s.keepRunning
    ensures CanRun(s, path) && Enabled(Run(s, path), ServerGivesUp)
    ensures Sources(Run(s, path)) >= Sources(s)
    decreases StepsToServer(s.main)
  {
    if s.main == Serving {
      path := [];
    } else {
      var a := MainStep(s);
      MainStepKeepsSources(s);
      var rest := ReachServer(Apply(s, a));
      StepThen(s, a, rest);
      path := [a] + rest;
    }
  }

  /** Every early return adds a signal source, and the next one can follow. */
  lemma EarlyReturnAddsSource(s: State)
    requires Enabled(s, ServerGivesUp)
    ensures CanRun(s, RESTART)
    ensures Sources(Run(s, RESTART)) == Sources(s) + 1 && Enabled(Run(s, RESTART), ServerGivesUp)
  {
    RunRestart(s);
    CountAppend(s.watchdogs, Checking, Alive());
  }

  /** The signal sources, and the watchdog that main may be about to spawn without another test of the flag. */
  function Prospects(s: State): nat {
    Sources(s) + if s.main in {Installing, SettingJump, Spawning} then 1 else 0
  }

  lemma WatchdogStepAddsNone(s: State, a: Action)
    requires Enabled(s, a) && IsWatchdogStep(a)
    ensures Prospects(Apply(s, a)) <= Prospects(s)
  {
    WatchdogStepCounts(s, a);
    assert Apply(s, a).main == s.main;
  }

  lemma SpawnAddsNone(s: State, ok: bool)
    requires s.main == Spawning
    ensures Prospects(Apply(s, Spawn(ok))) <= Prospects(s)
  {
    CountAppend(s.watchdogs, Checking, Alive());
  }

  lemma OtherStepAddsNone(s: State, a: Action)
    requires !s.keepRunning && Enabled(s, a) && !IsWatchdogStep(a) && !a.Spawn?
    ensures Prospects(Apply(s, a)) <= Prospects(s)
  {
    assert Apply(s, a).watchdogs == s.watchdogs;
  }

  /** After a shutdown no step adds to them, be it main's, a watchdog's or the delivery of a signal. */
  lemma ShutdownStepAddsNone(s: State, a: Action)
    requires !s.keepRunning && Enabled(s, a)
    ensures Prospects(Apply(s, a)) <= Prospects(s)
  {
    if IsWatchdogStep(a) {
      WatchdogStepAddsNone(s, a);
    } else if a.Spawn? {
      SpawnAddsNone(s, a.ok);
    } else {
      OtherStepAddsNone(s, a);
    }
  }

  lemma {:induction false} ShutdownAddsNone(s: State, actions: seq<Action>)
    requires !s.keepRunning && CanRun(s, actions)
    ensures Prospects(Run(s, actions)) <= Prospects(s)
    decreases |actions|
  {
    if actions != [] {
      ShutdownStepAddsNone(s, actions[0]);
      ShutdownAddsNone(Apply(s, actions[0]), actions[1..]);
    }
  }

  /** Main comes to spawn the watchdog that it is about to spawn. */
  lemma {:induction false} ReachSpawn(s: State) returns (path: seq<Action>)
    requires s.main in {Installing, SettingJump, Spawning}
    ensures CanRun(s, path) && Sources(Run(s, path)) == Sources(s) + 1
    decreases StepsToServer(s.main)
  {
    var a := MainStep(s);
    MainStepKeepsSources(s);
    if s.main == Spawning {
      path := [a];
      OneStep(s, a);
    } else {
      var rest := ReachSpawn(Apply(s, a));
      StepThen(s, a, rest);
      path := [a] + rest;
    }
  }

  /** A run to two signal sources from each state outside the condition. */
  lemma UnsafeRun(s: State) returns (path: seq<Action>)
    requires InLoop(s) && (s.keepRunning || Prospects(s) > 1)
    ensures CanRun(s, path) && Sources(Run(s, path)) > 1
  {
    if s.keepRunning {
      var first := ReachServer(s);
      EarlyReturnAddsSource(Run(s, first));
      EarlyReturnAddsSource(Run(Run(s, first), RESTART));
      RunThen(Run(s, first), RESTART, RESTART);
      RunThen(s, first, RESTART + RESTART);
      path := first + (RESTART + RESTART);
    } else if Sources(s) > 1 {
      path := [];
    } else {
      path := ReachSpawn(s);
    }
  }

  /**
    With early returns of the server allowed, a state of the loop is safe for
    good if and only if the shutdown was requested and at most one signal
    source is there or about to come.
   */
  lemma SafeForGoodIff(s: State)
    requires InLoop(s)
    ensures (forall actions | CanRun(s, actions) :: Sources(Run(s, actions)) <= 1)
      <==> !s.keepRunning && Prospects(s) <= 1
  {
    if s.keepRunning || Prospects(s) > 1 {
      var path := UnsafeRun(s);
      assert CanRun(s, path) && Sources(Run(s, path)) > 1;
    } else {
      forall actions | CanRun(s, actions) ensures Sources(Run(s, actions)) <= 1 {
        ShutdownAddsNone(s, actions);
      }
    }
  }

  // An early return, then the shutdown while main already sets up the next turn.
  const LATE_SHUTDOWN: seq<Action> := [ServerGivesUp] + ([StopWatchdog] + ([Test] + [Shutdown]))

  lemma RunLateShutdown(s: State)
    requires Enabled(s, ServerGivesUp)
    ensures CanRun(s, LATE_SHUTDOWN)
    ensures Run(s, LATE_SHUTDOWN) ==
      s.(main := Installing, violationFlag := false, turn := s.turn + 1, keepRunning := false,
         watchdogKeepRunning := false)
  {
    var s1 := Apply(s, ServerGivesUp);
    var s2 := Apply(s1, StopWatchdog);
    var s3 := Apply(s2, Test);
    OneStep(s3, Shutdown);
    StepThen(s2, Test, [Shutdown]);
    StepThen(s1, StopWatchdog, [Test] + [Shutdown]);
    StepThen(s, ServerGivesUp, [StopWatchdog] + ([Test] + [Shutdown]));
  }

  /** A shutdown alone is not enough: this run ends with one source in the loop, and main's next steps add another. */
  lemma ShutdownCanBeTooLate()
    ensures
      var early := NEXT_TURN + LATE_SHUTDOWN;
      && CanRun(INITIAL, early) && InLoop(Run(INITIAL, early))
      && !Run(INITIAL, early).keepRunning && Sources(Run(INITIAL, early)) == 1
      && CanRun(Run(INITIAL, early), REARM) && Sources(Run(Run(INITIAL, early), REARM)) == 2
  {
    RunNextTurn(INITIAL);
    var serving := Run(INITIAL, NEXT_TURN);
    CountAppend([], Checking, Alive());
    assert [] + [Checking] == serving.watchdogs;
    RunLateShutdown(serving);
    RunThen(INITIAL, NEXT_TURN, LATE_SHUTDOWN);
    var late := Run(serving, LATE_SHUTDOWN);
    RunRearm(late);
    CountAppend(late.watchdogs, Checking, Alive());
  }
}
