/**
 What every run of the supervisor brings about: when the command starts, and that a cancel signal, the deadline or
 members left behind stop it, with which exit code.
 */
module SupervisorDuties {
  import opened Options
  import opened Supervisor

  // ------------------------------------------------------------------ one call of terminate_and_reap

  /** The call sees that the leader is reaped and the group empty. */
  predicate Settles(s: State) {
    (s.pc == Grace(GraceGroup) || s.pc == Kill(ReapGroup)) && s.world.leader.Gone? && Quiet(s.world)
  }

  /** The call gives up: its SIGKILL is the reap window of five seconds or more ago. */
  predicate GivesUp(s: State) {
    s.pc == Kill(ReapTest) && SentBefore(s.record.sent, SIGKILL, s.record.calls, 5_000_000_000, s.world.clock)
  }

  /** In this state the call returns, and that decides the outcome: `code` if it settles, 125 if it gives up. */
  predicate Decides(s: State, code: int, outcome: Outcome) {
    || (Settles(s) && outcome == Exit(code))
    || (GivesUp(s) && outcome == Exit(UNSETTLED))
  }

  /** `t` is in the call that `s` is in. */
  predicate SameCall(s: State, t: State) {
    && InStop(t.pc) && t.vars.caller == s.vars.caller && t.vars.signal == s.vars.signal
    && t.vars.outcome == s.vars.outcome
  }

  /** Past the call: the finally block, or its own call, with the outcome decided. */
  predicate Behind(s: State, outcome: Outcome) {
    (s.pc.End? || (InStop(s.pc) && s.vars.caller.OnExit?)) && s.vars.outcome == outcome
  }

  /** The exit code of a call that settles. */
  function CodeFor(v: Vars): int {
    match v.caller
    case OnCancel => 128 + v.signal
    case OnTimeout => 124
    case _ => 125
  }

  lemma CallGoesOn(cfg: Config, s: State, step: Step)
    requires Consistent(s) && Recorded(cfg, s) && InStop(s.pc) && CanStep(cfg, s, step)
    ensures var t := Next(cfg, s, step);
            SameCall(s, t) || (t.pc.End? && (Settles(s) || GivesUp(s)) && t == Return(s, Settles(s)))
  {
    match step
    case Environment(e) =>
    case Program(a) =>
      if s.pc.Grace? && !(s.pc.grace.GraceGroup? && Settled(s)) {
        GraceMoves(cfg, s, a);
      } else if s.pc.Kill? && !(s.pc.kill.ReapGroup? && Settled(s)) {
        if s.pc.kill.ReapTest? && s.world.clock >= s.vars.reapDeadline {
          SentBeforeLater(s.record.sent, SIGKILL, s.record.calls, FINAL_REAP, s.vars.reapDeadline, 0, s.world.clock);
        } else {
          KillMoves(s, a);
        }
      }
  }

  lemma BehindGoesOn(cfg: Config, s: State, step: Step, outcome: Outcome)
    requires Consistent(s) && Recorded(cfg, s) && Behind(s, outcome) && CanStep(cfg, s, step)
    ensures Behind(Next(cfg, s, step), outcome)
  {
    if InStop(s.pc) {
      CallGoesOn(cfg, s, step);
    }
  }

  /** Every call that is not the finally block's goes on until it decides the outcome for good. */
  lemma {:induction false} CallOutcome(cfg: Config, run: seq<State>, n: nat, m: nat) returns (r: nat)
    requires IsRun(cfg, run) && n <= m < |run| && InStop(run[n].pc) && !run[n].vars.caller.OnExit?
    ensures n <= r <= m && SameCall(run[n], run[r])
    ensures r == m || (Behind(run[m], run[m].vars.outcome)
                       && Decides(run[r], CodeFor(run[n].vars), run[m].vars.outcome))
    decreases m
  {
    r := n;
    if n < m {
      r := CallOutcome(cfg, run, n, m - 1);
      RunKeeps(cfg, run, m - 1);
      var step := StepOf(cfg, run, m - 1);
      if r == m - 1 {
        CallGoesOn(cfg, run[r], step);
        r := if SameCall(run[n], run[m]) then m else r;
      } else {
        BehindGoesOn(cfg, run[m - 1], step, run[m - 1].vars.outcome);
      }
    }
  }

  lemma {:induction false} SentGrows(cfg: Config, run: seq<State>, n: nat, m: nat)
    requires IsRun(cfg, run) && n <= m < |run|
    ensures run[n].record.sent <= run[m].record.sent
    decreases m
  {
    if n < m {
      SentGrows(cfg, run, n, m - 1);
      var step := StepOf(cfg, run, m - 1);
      StepSends(cfg, run[m - 1], step);
    }
  }

  lemma StepSends(cfg: Config, s: State, step: Step)
    requires CanStep(cfg, s, step)
    ensures s.record.sent <= Next(cfg, s, step).record.sent
  {
    match step
    case Environment(_) =>
    case Program(a) =>
      match s.pc
      case Authority(place) =>
      case Loop(place) =>
      case Grace(place) =>
      case Kill(place) =>
      case End(place) =>
  }

  predicate WasSent(sent: seq<Sent>, signal: int) {
    exists i :: 0 <= i < |sent| && sent[i].signal == signal
  }

  /** A call that returns has sent SIGTERM. */
  lemma ReturnHasTermed(cfg: Config, run: seq<State>, r: nat, m: nat, code: int, outcome: Outcome)
    requires IsRun(cfg, run) && r <= m < |run| && Decides(run[r], code, outcome)
    ensures WasSent(run[m].record.sent, SIGTERM)
  {
    RunKeeps(cfg, run, r);
    SentGrows(cfg, run, r, m);
    var sent := run[r].record.sent;
    var i :| 0 <= i < |sent| && sent[i].signal == SIGTERM;
    assert run[m].record.sent[i] == sent[i];
  }

  // ------------------------------------------------------------------ a cancel signal or the deadline stops it

  /** On the way from the poll to a call: for a cancel signal, or else for the timer. */
  predicate Heading(cfg: Config, s: State, cancel: bool) {
    if cancel then (s.pc == Loop(PollMain) || s.pc == Loop(MainSignal)) && CancelPending(s.world)
    else
      && s.world.clock >= cfg.deadline
      && (s.pc == Loop(PollMain) || (s.vars.timer && (s.pc == Loop(MainSignal) || s.pc == Loop(MainTimer))))
  }

  /** In `s` the program decides for a call, and `t` is the state after that. */
  predicate CallsFor(cfg: Config, s: State, t: State) {
    && t.pc == Grace(SendTerm)
    && ( || (s.pc == Loop(MainSignal) && t.vars.caller.OnCancel? && t.vars.signal in s.world.pending * CANCEL_SIGNALS)
         || (s.pc == Loop(MainTimer) && t.vars.caller.OnTimeout? && s.world.clock >= cfg.deadline))
  }

  lemma HeadingStep(cfg: Config, s: State, step: Step, cancel: bool)
    requires Heading(cfg, s, cancel) && CanStep(cfg, s, step)
    ensures var t := Next(cfg, s, step);
            Heading(cfg, t, cancel) || (CallsFor(cfg, s, t) && (cancel ==> s.pc == Loop(MainSignal)))
  {
    match step
    case Environment(e) =>
      assert s.world.pending * CANCEL_SIGNALS <= After(s.world, e).pending * CANCEL_SIGNALS;
    case Program(a) =>
      match s.pc.loop
      case PollMain =>
      case MainSignal =>
      case MainTimer =>
  }

  lemma {:induction false} HeadsForCall(cfg: Config, run: seq<State>, n: nat, m: nat, cancel: bool) returns (k: nat)
    requires IsRun(cfg, run) && n <= m < |run| && Heading(cfg, run[n], cancel)
    ensures n <= k <= m && Heading(cfg, run[k], cancel)
    ensures k < m ==> CallsFor(cfg, run[k], run[k + 1]) && (cancel ==> run[k].pc == Loop(MainSignal))
    decreases m
  {
    k := n;
    if n < m {
      k := HeadsForCall(cfg, run, n, m - 1, cancel);
      if k == m - 1 {
        var step := StepOf(cfg, run, k);
        HeadingStep(cfg, run[k], step, cancel);
        k := if Heading(cfg, run[m], cancel) then m else k;
      }
    }
  }

  /** The steps after which a program that has been given a reason to stop is done. */
  ghost predicate StepsEnough(cfg: Config, steps: seq<Step>, n: nat, m: nat) {
    n <= m <= |steps| && ProgramSteps(steps, n, m) >= 2 * MaxSteps(cfg) + 16
  }

  lemma Obeyed(cfg: Config, run: seq<State>, steps: seq<Step>, n: nat, m: nat, cancel: bool) returns (k: nat, r: nat)
    requires IsRun(cfg, run) && Takes(cfg, run, steps) && StepsEnough(cfg, steps, n, m)
    requires run[n].pc == Loop(PollMain) && Heading(cfg, run[n], cancel)
    ensures run[m].pc == End(Done) && n <= k < r < m && CallsFor(cfg, run[k], run[k + 1])
    ensures cancel ==> run[k].pc == Loop(MainSignal)
    ensures Decides(run[r], CodeFor(run[k + 1].vars), run[m].vars.outcome)
    ensures run[n].record.sent == [] && WasSent(run[m].record.sent, SIGTERM)
  {
    ProgramEnds(cfg, run, steps, n, m);
    k := HeadsForCall(cfg, run, n, m, cancel);
    r := CallOutcome(cfg, run, k + 1, m);
    RunKeeps(cfg, run, n);
    ReturnHasTermed(cfg, run, r, m, CodeFor(run[k + 1].vars), run[m].vars.outcome);
  }

  /**
   A cancel signal that is pending when the event loop polls stops the command, whatever else happens: SIGTERM is sent,
   and the exit code is 128 and a cancel signal that was pending, or 125 if the command outlasts the reap window.
   */
  lemma CancelObeyed(cfg: Config, run: seq<State>, steps: seq<Step>, n: nat, m: nat) returns (k: nat, r: nat)
    requires IsRun(cfg, run) && Takes(cfg, run, steps) && StepsEnough(cfg, steps, n, m)
    requires run[n].pc == Loop(PollMain) && CancelPending(run[n].world)
    ensures run[m].pc == End(Done) && n <= k < r < m
    ensures var signal := run[k + 1].vars.signal;
            && signal in run[k].world.pending && signal in CANCEL_SIGNALS
            && Decides(run[r], 128 + signal, run[m].vars.outcome)
    ensures run[n].record.sent == [] && WasSent(run[m].record.sent, SIGTERM)
  {
    k, r := Obeyed(cfg, run, steps, n, m, true);
  }

  /** So does the deadline, with 124 unless a cancel signal comes first. */
  lemma DeadlineObeyed(cfg: Config, run: seq<State>, steps: seq<Step>, n: nat, m: nat) returns (k: nat, r: nat)
    requires IsRun(cfg, run) && Takes(cfg, run, steps) && StepsEnough(cfg, steps, n, m)
    requires run[n].pc == Loop(PollMain) && run[n].world.clock >= cfg.deadline
    ensures run[m].pc == End(Done) && n <= k < r < m
    ensures var signal := run[k + 1].vars.signal;
            if CancelPending(run[k].world) && run[k].pc == Loop(MainSignal) then
              && signal in run[k].world.pending && signal in CANCEL_SIGNALS
              && Decides(run[r], 128 + signal, run[m].vars.outcome)
            else Decides(run[r], 124, run[m].vars.outcome)
    ensures run[n].record.sent == [] && WasSent(run[m].record.sent, SIGTERM)
  {
    k, r := Obeyed(cfg, run, steps, n, m, false);
  }

  /** Members that the leader leaves behind are stopped, and the exit code is 125. */
  lemma LeftoversStopped(cfg: Config, run: seq<State>, steps: seq<Step>, n: nat, m: nat) returns (r: nat)
    requires IsRun(cfg, run) && Takes(cfg, run, steps) && StepsEnough(cfg, steps, n + 1, m)
    requires LeavesMembers(run[n]) && steps[n].Program?
    ensures run[m].pc == End(Done) && run[m].vars.outcome == Exit(125)
    ensures n < r < m && (Settles(run[r]) || GivesUp(run[r])) && WasSent(run[m].record.sent, SIGTERM)
  {
    assert TakesAt(cfg, run, steps, n);
    ProgramEnds(cfg, run, steps, n + 1, m);
    r := CallOutcome(cfg, run, n + 1, m);
    ReturnHasTermed(cfg, run, r, m, 125, run[m].vars.outcome);
  }

  // ------------------------------------------------------------------ how a call goes

  /** A call that takes more steps than its grace period has turns sends SIGKILL. */
  lemma {:induction false} OutlivedGraceIsKilled(cfg: Config, run: seq<State>, steps: seq<Step>, n: nat, m: nat)
    requires IsRun(cfg, run) && Takes(cfg, run, steps) && n <= m && StopsThrough(run, n, m)
    requires run[n].pc == Grace(SendTerm) && ProgramSteps(steps, n, m) > Turns(cfg.grace) * 6 + 8
    ensures WasSent(run[m].record.sent, SIGKILL)
  {
    MeasureCounts(cfg, run, steps, n, m);
    RunKeeps(cfg, run, m);
  }

  /** Steps since the latest SIGKILL. */
  function SinceKill(place: KillPlace): nat {
    match place
    case SendKill => 0
    case SetReap => 0
    case ReapSleep => 0
    case ReapTest => 1
    case ReapReady => 2
    case ReapWait => 3
    case ReapGroup => 4
    case KillAgain => 5
  }

  ghost predicate KillsThrough(run: seq<State>, n: nat, m: nat) {
    m < |run| && forall k :: n <= k <= m ==> run[k].pc.Kill?
  }

  /** From then on it sends one in at most six of its steps. */
  lemma {:induction false} KillsEveryTurn(cfg: Config, run: seq<State>, steps: seq<Step>, n: nat, m: nat)
    requires Takes(cfg, run, steps) && n <= m && KillsThrough(run, n, m)
    ensures run[n].record.sent <= run[m].record.sent
    ensures ProgramSteps(steps, n, m) + SinceKill(run[n].pc.kill) <=
            6 * (|run[m].record.sent| - |run[n].record.sent|) + SinceKill(run[m].pc.kill)
    ensures forall i :: |run[n].record.sent| <= i < |run[m].record.sent| ==> run[m].record.sent[i].signal == SIGKILL
    decreases m
  {
    if n < m {
      KillsEveryTurn(cfg, run, steps, n, m - 1);
      assert TakesAt(cfg, run, steps, m - 1);
      assert run[m - 1].pc.Kill?;
      match run[m - 1].pc.kill
      case SendKill =>
      case SetReap =>
      case ReapTest =>
      case ReapReady =>
      case ReapWait =>
      case ReapGroup =>
      case KillAgain =>
      case ReapSleep =>
    }
  }

  /** Nothing of the command runs any more, though its leader may be unreaped. */
  predicate Over(s: State) {
    !s.world.leader.Running? && s.vars.spawned && s.vars.fds.pid && s.world.alive == 0 && s.world.dead == 0
  }

  /** Past the loop test of a turn, and how many steps away from the end of the call when nothing runs any more. */
  predicate Checking(s: State, left: nat) {
    && Over(s)
    && match s.pc
       case Grace(GraceReady) => left == 3
       case Grace(GraceWait) => left == 2
       case Grace(GraceGroup) => left == 1 && s.vars.reaped
       case Kill(ReapReady) => left == 3
       case Kill(ReapWait) => left == 2
       case Kill(ReapGroup) => left == 1 && s.vars.reaped
       case _ => false
  }

  lemma CheckingStep(cfg: Config, s: State, step: Step, left: nat) returns (less: nat)
    requires Consistent(s) && Recorded(cfg, s) && Checking(s, left) && CanStep(cfg, s, step)
    ensures var t := Next(cfg, s, step);
            if t.pc.End? then step.Program? && Settles(s)
            else Checking(t, less) && SameCall(s, t) && t.record.sent == s.record.sent
                 && less + (if step.Program? then 1 else 0) <= left
  {
    var t := Next(cfg, s, step);
    CallGoesOn(cfg, s, step);
    less := if step.Environment? then left else if Checking(t, 2) then 2 else 1;
  }

  /** Once nothing of the command runs, the next turn of a call ends it, with no further signal. */
  lemma {:induction false} CallSettles(cfg: Config, run: seq<State>, steps: seq<Step>, n: nat, m: nat)
    returns (r: nat, left: nat)
    requires IsRun(cfg, run) && Takes(cfg, run, steps) && n <= m < |run|
    requires Over(run[n]) && (run[n].pc == Grace(GraceReady) || run[n].pc == Kill(ReapReady))
    ensures n <= r <= m && SameCall(run[n], run[r]) && run[r].record.sent == run[n].record.sent
    ensures if r == m then Checking(run[m], left) && ProgramSteps(steps, n, m) + left <= 3
            else Settles(run[r]) && run[r + 1].pc.End?
    ensures ProgramSteps(steps, n, m) >= 3 ==> r < m
    decreases m
  {
    r, left := n, 3;
    if n < m {
      r, left := CallSettles(cfg, run, steps, n, m - 1);
      if r == m - 1 {
        RunKeeps(cfg, run, r);
        assert TakesAt(cfg, run, steps, r);
        left := CheckingStep(cfg, run[r], steps[r], left);
        r := if run[m].pc.End? then r else m;
      }
    }
  }

  // ------------------------------------------------------------------ nothing is left unfought

  predicate Fought(s: State) {
    Quiet(s.world) || SentBefore(s.record.sent, SIGKILL, s.record.calls, 5_000_000_000, s.world.clock)
  }

  predicate FoughtAtEnd(s: State) {
    s.pc.End? && (!s.pc.end.Finally? || s.vars.reaped) ==> Fought(s)
  }

  lemma StepFights(cfg: Config, s: State, step: Step)
    requires Consistent(s) && Recorded(cfg, s) && FoughtAtEnd(s) && CanStep(cfg, s, step)
    ensures FoughtAtEnd(Next(cfg, s, step))
  {
    match step
    case Environment(e) => FoughtStays(s, e);
    case Program(a) =>
      match s.pc
      case Authority(place) =>
      case Loop(place) => LoopFights(cfg, s, a);
      case Grace(_) => CallGoesOn(cfg, s, step);
      case Kill(_) => CallGoesOn(cfg, s, step);
      case End(place) =>
  }

  lemma FoughtStays(s: State, e: Event)
    requires Consistent(s) && FoughtAtEnd(s) && Possible(s.world, e)
    ensures FoughtAtEnd(EnvironmentStep(s, e))
  {
    var clock := s.world.clock;
    if SentBefore(s.record.sent, SIGKILL, s.record.calls, FINAL_REAP, clock) && e.Tick? {
      SentBeforeLater(s.record.sent, SIGKILL, s.record.calls, FINAL_REAP, clock, 0, clock + e.amount);
    }
  }

  lemma LoopFights(cfg: Config, s: State, a: Answer)
    requires Consistent(s) && s.pc.Loop? && Enabled(cfg, s)
    ensures FoughtAtEnd(LoopStep(cfg, s, a))
  {
    match s.pc.loop
    case OpenPidFd =>
    case PollMain =>
    case MainSignal =>
    case MainTimer =>
    case MainChild =>
    case MainReady =>
    case MainWait =>
    case MainGroup =>
  }

  lemma {:induction false} RunFights(cfg: Config, run: seq<State>, n: nat)
    requires IsRun(cfg, run) && n < |run|
    ensures FoughtAtEnd(run[n])
  {
    if n > 0 {
      RunFights(cfg, run, n - 1);
      RunKeeps(cfg, run, n - 1);
      var step := StepOf(cfg, run, n - 1);
      StepFights(cfg, run[n - 1], step);
    }
  }

  /**
   However the program ends, by an exit code or an exception: nothing is left of the command, or its group was sent
   SIGKILL and given the reap window. Every descriptor is closed and the signals are restored.
   */
  lemma NothingLeftUnfought(cfg: Config, run: seq<State>, n: nat)
    requires IsRun(cfg, run) && n < |run| && run[n].pc == End(Done)
    ensures Fought(run[n])
    ensures var v := run[n].vars; !v.fds.pid && !v.fds.authority && !v.fds.signal && !v.fds.timer && v.restored
  {
    RunKeeps(cfg, run, n);
    RunFights(cfg, run, n);
  }

  // ------------------------------------------------------------------ before the command starts

  /** Nothing has been started, and nothing will be. */
  predicate Refused(s: State, outcome: Outcome) {
    s.pc.End? && !s.vars.spawned && s.vars.outcome == outcome
  }

  lemma {:induction false} RefusedForGood(cfg: Config, run: seq<State>, n: nat, m: nat, outcome: Outcome)
    requires IsRun(cfg, run) && n <= m < |run| && Refused(run[n], outcome)
    ensures Refused(run[m], outcome)
    decreases m
  {
    if n < m {
      RefusedForGood(cfg, run, n, m - 1, outcome);
      var step := StepOf(cfg, run, m - 1);
    }
  }

  /** On the way from a poll that waits for the authority to the end: for a cancel signal, or else for the timer. */
  predicate Quitting(cfg: Config, s: State, cancel: bool) {
    if cancel then
      (s.pc == Authority(PollAuthority) || s.pc == Authority(AuthoritySignal)) && CancelPending(s.world)
    else
      && s.world.clock >= cfg.deadline
      && ( || s.pc == Authority(PollAuthority)
           || (s.vars.timer && (s.pc == Authority(AuthoritySignal) || s.pc == Authority(AuthorityTimer))))
  }

  /** In `s` the program gives up waiting, with this exit code. */
  predicate QuitsWith(cfg: Config, s: State, code: int) {
    || (s.pc == Authority(AuthoritySignal) && code - 128 in s.world.pending && code - 128 in CANCEL_SIGNALS)
    || (s.pc == Authority(AuthorityTimer) && s.world.clock >= cfg.deadline && code == 124)
  }

  lemma QuittingStep(cfg: Config, s: State, step: Step, cancel: bool)
    requires Consistent(s) && Quitting(cfg, s, cancel) && CanStep(cfg, s, step)
    ensures var t := Next(cfg, s, step);
            || Quitting(cfg, t, cancel)
            || (&& t.vars.outcome.Exit? && Refused(t, t.vars.outcome) && QuitsWith(cfg, s, t.vars.outcome.code)
                && (cancel ==> s.pc == Authority(AuthoritySignal)))
  {
    match step
    case Environment(e) =>
      assert s.world.pending * CANCEL_SIGNALS <= After(s.world, e).pending * CANCEL_SIGNALS;
    case Program(a) =>
      match s.pc.authority
      case PollAuthority =>
      case AuthoritySignal =>
      case AuthorityTimer =>
  }

  lemma {:induction false} Quits(cfg: Config, run: seq<State>, n: nat, m: nat, cancel: bool) returns (k: nat)
    requires IsRun(cfg, run) && n <= m < |run| && Quitting(cfg, run[n], cancel)
    ensures n <= k <= m && Quitting(cfg, run[k], cancel)
    ensures k < m ==> && run[m].vars.outcome.Exit? && Refused(run[m], run[m].vars.outcome)
                      && QuitsWith(cfg, run[k], run[m].vars.outcome.code)
                      && (cancel ==> run[k].pc == Authority(AuthoritySignal))
    decreases m
  {
    k := n;
    if n < m {
      k := Quits(cfg, run, n, m - 1, cancel);
      if k == m - 1 {
        RunKeeps(cfg, run, k);
        var step := StepOf(cfg, run, k);
        QuittingStep(cfg, run[k], step, cancel);
        k := if Quitting(cfg, run[m], cancel) then m else k;
      } else {
        RefusedForGood(cfg, run, m - 1, m, run[m - 1].vars.outcome);
      }
    }
  }

  /**
   While it waits for the authority, a cancel signal or the deadline ends the program with 128 and that signal, or 124,
   and nothing is ever started.
   */
  lemma WaitingObeys(cfg: Config, run: seq<State>, steps: seq<Step>, n: nat, m: nat) returns (k: nat)
    requires IsRun(cfg, run) && Takes(cfg, run, steps) && StepsEnough(cfg, steps, n, m)
    requires run[n].pc == Authority(PollAuthority)
    requires CancelPending(run[n].world) || run[n].world.clock >= cfg.deadline
    ensures run[m].pc == End(Done) && run[m].world.leader.Unborn? && run[m].vars.outcome.Exit?
    ensures n <= k < m && QuitsWith(cfg, run[k], run[m].vars.outcome.code)
    ensures CancelPending(run[n].world) ==> run[k].pc == Authority(AuthoritySignal)
  {
    ProgramEnds(cfg, run, steps, n, m);
    k := Quits(cfg, run, n, m, CancelPending(run[n].world));
    RunKeeps(cfg, run, m);
  }

  predicate Waiting(s: State) {
    && s.pc.Authority? && !s.pc.authority.Spawn?
    && (s.pc.authority.AuthoritySignal? || s.pc.authority.AuthorityTimer? ==> !s.vars.timer)
  }

  /** With an empty authority file, no cancel signal and time left, the program goes on waiting. */
  lemma {:induction false} WaitsForToken(cfg: Config, run: seq<State>, n: nat, m: nat)
    requires IsRun(cfg, run) && n <= m < |run| && cfg.token.Some? && Waiting(run[n])
    requires forall k :: n <= k <= m ==> Undecided(cfg, run[k].world)
    ensures Waiting(run[m])
    decreases m
  {
    if n < m {
      WaitsForToken(cfg, run, n, m - 1);
      var step := StepOf(cfg, run, m - 1);
      assert Undecided(cfg, run[m - 1].world) && Undecided(cfg, run[m].world);
      WaitingStep(cfg, run[m - 1], step);
    }
  }

  predicate Undecided(cfg: Config, w: World) {
    w.file == "" && !CancelPending(w) && w.clock < cfg.deadline
  }

  lemma WaitingStep(cfg: Config, s: State, step: Step)
    requires cfg.token.Some? && Waiting(s) && CanStep(cfg, s, step)
    requires Undecided(cfg, s.world) && Undecided(cfg, Next(cfg, s, step).world)
    ensures Waiting(Next(cfg, s, step))
  {
    match step
    case Environment(_) =>
    case Program(a) =>
      assert Cancelled(s, a) ==> a.signal in s.world.pending * CANCEL_SIGNALS;
      match s.pc.authority
      case ReadAuthority =>
      case PollAuthority =>
      case AuthoritySignal =>
      case AuthorityTimer =>
  }

  /** The read that lets the command start, or none needed. */
  ghost predicate Authorized(cfg: Config, s: State) {
    s.pc == Authority(ReadAuthority) && (cfg.token.None? || s.world.file == cfg.token.value + "\n")
  }

  lemma {:induction false} SpawnedForGood(cfg: Config, run: seq<State>, n: nat, m: nat)
    requires IsRun(cfg, run) && n <= m < |run| && run[n].vars.spawned
    ensures run[m].vars.spawned
    decreases m
  {
    if n < m {
      SpawnedForGood(cfg, run, n, m - 1);
      RunKeeps(cfg, run, m - 1);
      RunKeeps(cfg, run, m);
      var step := StepOf(cfg, run, m - 1);
      match step
      case Environment(_) =>
      case Program(a) =>
        match run[m - 1].pc
        case Authority(_) =>
        case Loop(_) => LoopKeepsSpawned(cfg, run[m - 1], a);
        case Grace(_) => GraceKeepsSpawned(cfg, run[m - 1], a);
        case Kill(_) => KillKeepsSpawned(run[m - 1], a);
        case End(_) =>
    }
  }

  /** Then the command is started; only a failing spawn keeps it from that, and that is raised. */
  lemma AuthorityStarts(cfg: Config, run: seq<State>, steps: seq<Step>, n: nat, m: nat) returns (k: nat)
    requires IsRun(cfg, run) && Takes(cfg, run, steps) && n < m < |run|
    requires Authorized(cfg, run[n]) && steps[n].Program? && ProgramSteps(steps, n, m) >= 2
    ensures n < k < m && run[k].pc == Authority(Spawn) && steps[k].Program?
    ensures if steps[k].answer.ok then run[k + 1].world.leader.Running? && run[m].vars.spawned
            else Refused(run[m], Raised)
  {
    assert TakesAt(cfg, run, steps, n);
    if cfg.token.Some? {
      ObservedExactly(run[n].world.file, cfg.token.value);
    }
    k := SpawnIsNext(cfg, run, steps, n, m);
    assert TakesAt(cfg, run, steps, k);
    RunKeeps(cfg, run, k);
    if steps[k].answer.ok {
      SpawnedForGood(cfg, run, k + 1, m);
    } else {
      RefusedForGood(cfg, run, k + 1, m, Raised);
    }
  }

  /** The first program step after `n + 1` is the spawn. */
  lemma {:induction false} SpawnIsNext(cfg: Config, run: seq<State>, steps: seq<Step>, n: nat, m: nat) returns (k: nat)
    requires Takes(cfg, run, steps) && n < m < |run| && run[n + 1].pc == Authority(Spawn) && steps[n].Program?
    ensures n < k <= m && run[k].pc == Authority(Spawn)
    ensures if k == m then ProgramSteps(steps, n, m) == 1 else steps[k].Program?
    ensures ProgramSteps(steps, n, m) >= 2 ==> k < m
    decreases m
  {
    k := m;
    if n + 1 < m {
      k := SpawnIsNext(cfg, run, steps, n, m - 1);
      assert TakesAt(cfg, run, steps, m - 1);
      if k == m - 1 && steps[k].Environment? {
        k := m;
      }
    } else {
      assert ProgramSteps(steps, n, n) == 0;
    }
  }

  /** Any other content of the authority file is refused with an exception, and nothing is ever started. */
  lemma BadTokenRefused(cfg: Config, run: seq<State>, steps: seq<Step>, n: nat, m: nat)
    requires IsRun(cfg, run) && Takes(cfg, run, steps) && n < m < |run| && cfg.token.Some?
    requires run[n].pc == Authority(ReadAuthority) && steps[n].Program?
    requires run[n].world.file != "" && run[n].world.file != cfg.token.value + "\n"
    ensures Refused(run[m], Raised) && run[m].world.leader.Unborn?
  {
    assert TakesAt(cfg, run, steps, n);
    ObservedExactly(run[n].world.file, cfg.token.value);
    RunKeeps(cfg, run, n);
    RefusedForGood(cfg, run, n + 1, m, Raised);
    RunKeeps(cfg, run, m);
  }

  /** The command never inherits the authority descriptor. */
  predicate AuthorityClosed(cfg: Config, s: State) {
    cfg.token.None? || s.pc == Authority(Spawn) || s.vars.spawned ==> !s.vars.fds.authority
  }

  lemma StepClosesAuthority(cfg: Config, s: State, step: Step)
    requires AuthorityClosed(cfg, s) && CanStep(cfg, s, step)
    ensures AuthorityClosed(cfg, Next(cfg, s, step))
  {
    match step
    case Environment(_) =>
    case Program(a) =>
      if s.pc.Authority? {
        WaitingClosesAuthority(cfg, s, a);
      } else if s.pc.End? {
        EndClosesAuthority(s);
      } else {
        OthersKeepAuthority(cfg, s, a);
      }
  }

  lemma EndClosesAuthority(s: State)
    requires s.pc.End?
    ensures var t := EndStep(s);
            (t.vars.fds.authority ==> s.vars.fds.authority) && t.vars.spawned == s.vars.spawned && !t.pc.Authority?
  {
    match s.pc.end
    case Finally =>
    case _ =>
  }

  lemma WaitingClosesAuthority(cfg: Config, s: State, a: Answer)
    requires AuthorityClosed(cfg, s) && s.pc.Authority?
    ensures AuthorityClosed(cfg, AuthorityStep(cfg, s, a))
  {
    match s.pc.authority
    case ReadAuthority =>
    case PollAuthority =>
    case AuthoritySignal =>
    case AuthorityTimer =>
    case Spawn =>
  }

  lemma OthersKeepAuthority(cfg: Config, s: State, a: Answer)
    requires !s.pc.Authority? && !s.pc.End? && Enabled(cfg, s)
    ensures var t := ProgramStep(cfg, s, a);
            t.vars.fds.authority == s.vars.fds.authority && t.vars.spawned == s.vars.spawned && !t.pc.Authority?
  {
    match s.pc
    case Loop(_) => LoopKeepsAuthority(cfg, s, a); LoopKeepsSpawned(cfg, s, a);
    case Grace(_) => GraceKeepsAuthority(cfg, s, a); GraceKeepsSpawned(cfg, s, a);
    case Kill(_) => KillKeepsAuthority(s, a); KillKeepsSpawned(s, a);
  }

  lemma LoopKeepsAuthority(cfg: Config, s: State, a: Answer)
    requires s.pc.Loop?
    ensures LoopStep(cfg, s, a).vars.fds.authority == s.vars.fds.authority
  {
    match s.pc.loop
    case MainGroup =>
    case _ =>
  }

  lemma GraceKeepsAuthority(cfg: Config, s: State, a: Answer)
    requires s.pc.Grace?
    ensures GraceStep(cfg, s, a).vars.fds.authority == s.vars.fds.authority
  {
    match s.pc.grace
    case GraceGroup =>
    case _ =>
  }

  lemma KillKeepsAuthority(s: State, a: Answer)
    requires s.pc.Kill?
    ensures KillStep(s, a).vars.fds.authority == s.vars.fds.authority
  {
    match s.pc.kill
    case ReapTest =>
    case ReapGroup =>
    case _ =>
  }

  lemma {:induction false} NeverInheritsAuthority(cfg: Config, run: seq<State>, n: nat)
    requires IsRun(cfg, run) && n < |run|
    ensures AuthorityClosed(cfg, run[n])
  {
    if n > 0 {
      NeverInheritsAuthority(cfg, run, n - 1);
      var step := StepOf(cfg, run, n - 1);
      StepClosesAuthority(cfg, run[n - 1], step);
    }
  }
}
