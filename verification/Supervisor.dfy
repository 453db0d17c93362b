/**
 The process supervisor of scripts/release-api-supervisor.py as a state machine.

 Each program step is one system call or one test of the script; between any two of them the environment may
 deliver signals, write the authority file, let processes of the command's group fork, exit or be reaped, and let
 time pass.
 */
module Supervisor {
  import opened Options

  const SIGHUP := 1
  const SIGINT := 2
  const SIGKILL := 9
  const SIGTERM := 15
  const SIGCHLD := 17
  const CANCEL_SIGNALS := {SIGINT, SIGTERM, SIGHUP}
  const HANDLED_SIGNALS := {SIGINT, SIGTERM, SIGHUP, SIGCHLD}

  const SECOND := 1_000_000_000
  const SLICE := 10_000_000
  const FINAL_REAP := 5 * SECOND

  const TIMED_OUT := 124
  const UNSETTLED := 125

  /**
   The command line: the authority token if a descriptor is supplied, the deadline, the grace period in nanoseconds.
   */
  datatype Config = Config(token: Option<string>, deadline: nat, grace: nat)

  // ------------------------------------------------------------------ the world

  /** The group leader; a raw status is the exit code, or minus the signal that killed it. */
  datatype Leader = Unborn | Running | Zombie(raw: int) | Gone(raw: int)

  /**
   Clock, authority file, pending signals, and the command's process group: its leader, other live members, unreaped
   ones.
   */
  datatype World = World(clock: nat, file: string, pending: set<int>, leader: Leader, alive: nat, dead: nat)

  predicate GroupExists(w: World) {
    w.leader.Running? || w.leader.Zombie? || w.alive > 0 || w.dead > 0
  }

  /** Nothing was spawned, or the leader is reaped and its group is empty. */
  predicate Quiet(w: World) {
    w.leader.Unborn? || (w.leader.Gone? && w.alive == 0 && w.dead == 0)
  }

  datatype Event =
    | Tick(amount: nat)
    | WriteFile(content: string)
    | Deliver(signal: int)
    | LeaderExits(status: int)
    | Fork
    | MemberExits(reaped: bool)
    | MemberReaped

  /** Only a live member of the group adds members to it. */
  predicate Possible(w: World, e: Event) {
    match e
    case Tick(_) => true
    case WriteFile(_) => true
    case Deliver(signal) => signal in HANDLED_SIGNALS
    case LeaderExits(status) => w.leader.Running? && -64 <= status <= 255
    case Fork => w.leader.Running? || w.alive > 0
    case MemberExits(_) => w.alive > 0
    case MemberReaped => w.dead > 0
  }

  function After(w: World, e: Event): World
    requires Possible(w, e)
  {
    match e
    case Tick(amount) => w.(clock := w.clock + amount)
    case WriteFile(content) => w.(file := content)
    case Deliver(signal) => w.(pending := w.pending + {signal})
    case LeaderExits(status) => w.(leader := Zombie(status), pending := w.pending + {SIGCHLD})
    case Fork => w.(alive := w.alive + 1)
    case MemberExits(reaped) => w.(alive := w.alive - 1, dead := if reaped then w.dead else w.dead + 1)
    case MemberReaped => w.(dead := w.dead - 1)
  }

  // ------------------------------------------------------------------ the program

  /** SystemExit with a code, or an exception that escapes. */
  datatype Outcome = Exit(code: int) | Raised

  /** What called terminate_and_reap: a cancel signal, the timer, leftover descendants, or the finally block. */
  datatype Caller = OnCancel | OnTimeout | OnLeftovers | OnExit

  datatype AuthorityPlace = ReadAuthority | PollAuthority | AuthoritySignal | AuthorityTimer | Spawn
  datatype LoopPlace = OpenPidFd | PollMain | MainSignal | MainTimer | MainChild | MainReady | MainWait | MainGroup
  datatype GracePlace = SendTerm | SetGrace | GraceTest | GraceReady | GraceWait | GraceGroup | GraceSleep
  datatype KillPlace = SendKill | SetReap | ReapTest | ReapReady | ReapWait | ReapGroup | KillAgain | ReapSleep
  datatype EndPlace = Finally | ClosePid | CloseAuthority | CloseSignal | CloseTimer | Restore | Done

  /**
   Places in the program: await_parent_authority and the spawn, the event loop, terminate_and_reap before and from
   its first SIGKILL, and the finally block.
   */
  datatype Pc =
    | Authority(authority: AuthorityPlace)
    | Loop(loop: LoopPlace)
    | Grace(grace: GracePlace)
    | Kill(kill: KillPlace)
    | End(end: EndPlace)

  /** Which descriptors are open. */
  datatype Descriptors = Descriptors(pid: bool, authority: bool, signal: bool, timer: bool)

  /** The program's variables; `timer` and `child` are the latest events polled. */
  datatype Vars = Vars(
    spawned: bool, reaped: bool, fds: Descriptors, restored: bool,
    timer: bool, child: bool, status: Option<int>, caller: Caller, signal: int, outcome: Outcome,
    graceDeadline: nat, reapDeadline: nat)

  /** A signal sent to the group, when, and in which call of terminate_and_reap. */
  datatype Sent = Sent(signal: int, time: nat, call: nat)

  /**
   A record for the theorems: signals sent to the group, calls of terminate_and_reap, when the latest began and
   how much time the environment has taken since.
   */
  datatype Record = Record(sent: seq<Sent>, calls: nat, calledAt: nat, late: nat)

  datatype State = State(pc: Pc, world: World, vars: Vars, record: Record)

  /** What the kernel answers: success, how long a sleep or poll took, which pending signal comes first. */
  datatype Answer = Answer(ok: bool, slept: nat, signal: int)

  function Expected(token: string): string {
    token + "\n"
  }

  /** pread of one octet more than expected. */
  function Observed(file: string, token: string): string {
    if |file| <= |Expected(token)| + 1 then file else file[..|Expected(token)| + 1]
  }

  /** The script's exit code for a raw status. */
  function ExitCode(raw: int): int {
    if raw >= 0 then raw else 128 - raw
  }

  predicate InStop(pc: Pc) {
    pc.Grace? || pc.Kill?
  }

  function Go(s: State, pc: Pc): State {
    s.(pc := pc)
  }

  function Finish(s: State, outcome: Outcome): State {
    s.(pc := End(Finally), vars := s.vars.(outcome := outcome))
  }

  function Call(s: State, caller: Caller): State {
    State(Grace(SendTerm), s.world, s.vars.(caller := caller),
          Record(s.record.sent, s.record.calls + 1, s.world.clock, 0))
  }

  function Verdict(v: Vars, ok: bool): Outcome {
    match v.caller
    case OnCancel => Exit(if ok then 128 + v.signal else UNSETTLED)
    case OnTimeout => Exit(if ok then TIMED_OUT else UNSETTLED)
    case OnLeftovers => Exit(UNSETTLED)
    case OnExit => v.outcome
  }

  /** Back from terminate_and_reap with its answer. */
  function Return(s: State, ok: bool): State {
    s.(pc := End(if s.vars.caller.OnExit? then ClosePid else Finally), vars := s.vars.(outcome := Verdict(s.vars, ok)))
  }

  function Send(s: State, signal: int, pc: Pc): State {
    s.(pc := pc, record := s.record.(sent := s.record.sent + [Sent(signal, s.world.clock, s.record.calls)]))
  }

  /** waitpid on a leader that has exited. */
  function Reap(s: State, pc: Pc): State {
    if s.world.leader.Zombie? then
      s.(pc := pc, world := s.world.(leader := Gone(s.world.leader.raw)),
         vars := s.vars.(reaped := true, status := Some(ExitCode(s.world.leader.raw))))
    else Go(s, pc)
  }

  /** Whether reap_ready_leader goes on to waitpid. */
  predicate Ready(s: State) {
    !s.vars.reaped && s.vars.fds.pid && s.world.leader.Zombie?
  }

  predicate Settled(s: State) {
    s.vars.reaped && !GroupExists(s.world)
  }

  function Sleep(s: State, a: Answer, pc: Pc): State {
    s.(pc := pc, world := s.world.(clock := s.world.clock + a.slept))
  }

  predicate Cancelled(s: State, a: Answer) {
    a.signal in s.world.pending && a.signal in CANCEL_SIGNALS
  }

  /** await_parent_authority and the spawn. */
  function AuthorityStep(cfg: Config, s: State, a: Answer): State
    requires s.pc.Authority?
  {
    match s.pc.authority
    case ReadAuthority =>
      if cfg.token.None? then Go(s, Authority(Spawn))
      else if Observed(s.world.file, cfg.token.value) == Expected(cfg.token.value) then
        s.(pc := Authority(Spawn), vars := s.vars.(fds := s.vars.fds.(authority := false)))
      else if s.world.file != "" then Finish(s, Raised)
      else Go(s, Authority(PollAuthority))
    case PollAuthority =>
      var later := Sleep(s, a, if s.world.pending != {} then Authority(AuthoritySignal) else Authority(AuthorityTimer));
      later.(vars := s.vars.(timer := later.world.clock >= cfg.deadline))
    case AuthoritySignal =>
      var read := s.(world := s.world.(pending := {}));
      if Cancelled(s, a) then Finish(read, Exit(128 + a.signal)) else Go(read, Authority(AuthorityTimer))
    case AuthorityTimer => if s.vars.timer then Finish(s, Exit(TIMED_OUT)) else Go(s, Authority(ReadAuthority))
    case Spawn =>
      if a.ok then s.(pc := Loop(OpenPidFd), world := s.world.(leader := Running), vars := s.vars.(spawned := true))
      else Finish(s, Raised)
  }

  /** The event loop. */
  function LoopStep(cfg: Config, s: State, a: Answer): State
    requires s.pc.Loop?
  {
    match s.pc.loop
    case OpenPidFd =>
      if a.ok then s.(pc := Loop(PollMain), vars := s.vars.(fds := s.vars.fds.(pid := true)))
      else Finish(s, Raised)
    case PollMain =>
      s.(pc := if s.world.pending != {} then Loop(MainSignal) else Loop(MainTimer),
         vars := s.vars.(timer := s.world.clock >= cfg.deadline, child := s.world.leader.Zombie?))
    case MainSignal =>
      var read := s.(world := s.world.(pending := {}));
      if Cancelled(s, a) then Call(read.(vars := s.vars.(signal := a.signal)), OnCancel) else Go(read, Loop(MainTimer))
    case MainTimer => if s.vars.timer then Call(s, OnTimeout) else Go(s, Loop(MainChild))
    case MainChild => Go(s, if s.vars.child then Loop(MainReady) else Loop(PollMain))
    case MainReady =>
      if Ready(s) then Go(s, Loop(MainWait))
      else s.(pc := Loop(MainGroup), vars := s.vars.(status := None))
    case MainWait => Reap(s, Loop(MainGroup))
    case MainGroup =>
      if GroupExists(s.world) then Call(s, OnLeftovers)
      else Finish(s, if s.vars.status.None? then Raised else Exit(s.vars.status.value))
  }

  /** The finally block. */
  function EndStep(s: State): State
    requires s.pc.End?
  {
    match s.pc.end
    case Finally => if s.vars.spawned && !s.vars.reaped then Call(s, OnExit) else Go(s, End(ClosePid))
    case ClosePid => s.(pc := End(CloseAuthority), vars := s.vars.(fds := s.vars.fds.(pid := false)))
    case CloseAuthority => s.(pc := End(CloseSignal), vars := s.vars.(fds := s.vars.fds.(authority := false)))
    case CloseSignal => s.(pc := End(CloseTimer), vars := s.vars.(fds := s.vars.fds.(signal := false)))
    case CloseTimer => s.(pc := End(Restore), vars := s.vars.(fds := s.vars.fds.(timer := false)))
    case Restore => s.(pc := End(Done), vars := s.vars.(restored := true))
    case Done => s
  }

  /** terminate_and_reap up to the end of the grace period. */
  function GraceStep(cfg: Config, s: State, a: Answer): State
    requires s.pc.Grace?
  {
    match s.pc.grace
    case SendTerm => Send(s, SIGTERM, Grace(SetGrace))
    case SetGrace => s.(pc := Grace(GraceTest), vars := s.vars.(graceDeadline := s.world.clock + cfg.grace))
    case GraceTest => Go(s, if s.world.clock < s.vars.graceDeadline then Grace(GraceReady) else Kill(SendKill))
    case GraceReady => Go(s, if Ready(s) then Grace(GraceWait) else Grace(GraceGroup))
    case GraceWait => Reap(s, Grace(GraceGroup))
    case GraceGroup => if Settled(s) then Return(s, true) else Go(s, Grace(GraceSleep))
    case GraceSleep => Sleep(s, a, Grace(GraceTest))
  }

  /** terminate_and_reap from the first SIGKILL on. */
  function KillStep(s: State, a: Answer): State
    requires s.pc.Kill?
  {
    match s.pc.kill
    case SendKill => Send(s, SIGKILL, Kill(SetReap))
    case SetReap => s.(pc := Kill(ReapTest), vars := s.vars.(reapDeadline := s.world.clock + FINAL_REAP))
    case ReapTest => if s.world.clock < s.vars.reapDeadline then Go(s, Kill(ReapReady)) else Return(s, false)
    case ReapReady => Go(s, if Ready(s) then Kill(ReapWait) else Kill(ReapGroup))
    case ReapWait => Reap(s, Kill(ReapGroup))
    case ReapGroup => if Settled(s) then Return(s, true) else Go(s, Kill(KillAgain))
    case KillAgain => Send(s, SIGKILL, Kill(ReapSleep))
    case ReapSleep => Sleep(s, a, Kill(ReapTest))
  }

  /**
   The kernel's answers: a poll with a timeout takes some time but at most one slice, a sleep exactly one, what it
   takes longer being time of the environment; a signal read is a pending one if any is.
   */
  predicate Answers(s: State, a: Answer) {
    && 0 < a.slept <= SLICE
    && (s.pc == Grace(GraceSleep) || s.pc == Kill(ReapSleep) ==> a.slept == SLICE)
    && (s.pc == Authority(AuthoritySignal) || s.pc == Loop(MainSignal) ==>
        (s.world.pending * CANCEL_SIGNALS != {} ==> Cancelled(s, a)))
  }

  /** poll without a timeout returns only when something is ready; waitpid only when the leader has exited. */
  predicate Enabled(cfg: Config, s: State) {
    && s.pc != End(Done)
    && (s.pc == Loop(PollMain) ==> s.world.pending != {} || s.world.clock >= cfg.deadline || s.world.leader.Zombie?)
    && (s.pc == Loop(MainWait) || s.pc == Grace(GraceWait) || s.pc == Kill(ReapWait) ==> s.world.leader.Zombie?)
  }

  function ProgramStep(cfg: Config, s: State, a: Answer): State
    requires Enabled(cfg, s)
  {
    match s.pc
    case Authority(_) => AuthorityStep(cfg, s, a)
    case Loop(_) => LoopStep(cfg, s, a)
    case Grace(_) => GraceStep(cfg, s, a)
    case Kill(_) => KillStep(s, a)
    case End(_) => EndStep(s)
  }

  function EnvironmentStep(s: State, e: Event): State
    requires Possible(s.world, e)
  {
    var late := if e.Tick? then e.amount else 0;
    s.(world := After(s.world, e), record := s.record.(late := s.record.late + late))
  }

  datatype Step = Program(answer: Answer) | Environment(event: Event)

  predicate CanStep(cfg: Config, s: State, step: Step) {
    match step
    case Program(a) => Enabled(cfg, s) && Answers(s, a)
    case Environment(e) => Possible(s.world, e)
  }

  function Next(cfg: Config, s: State, step: Step): State
    requires CanStep(cfg, s, step)
  {
    match step
    case Program(a) => ProgramStep(cfg, s, a)
    case Environment(e) => EnvironmentStep(s, e)
  }

  predicate Init(cfg: Config, s: State) {
    && s.pc == Authority(ReadAuthority) && s.world.leader == Unborn && s.world.alive == 0 && s.world.dead == 0
    && !s.vars.spawned && !s.vars.fds.pid && !s.vars.reaped && !s.vars.restored
    && (s.vars.fds.authority <==> cfg.token.Some?) && s.vars.fds.signal && s.vars.fds.timer
    && s.record.sent == [] && s.record.calls == 0
  }

  // ------------------------------------------------------------------ what every step keeps

  /** An exit code other than 125 is given only when nothing of the command is left. */
  predicate Truthful(w: World, outcome: Outcome) {
    outcome.Exit? && outcome.code != UNSETTLED ==> Quiet(w)
  }

  /** What holds at a place of the event loop; after a poll that saw the leader exit, it stays exited until reaped. */
  predicate LoopOk(s: State, place: LoopPlace) {
    && s.vars.spawned
    && (!place.OpenPidFd? ==> s.vars.fds.pid)
    && (if place.MainGroup? then s.vars.reaped && s.vars.status.Some? else !s.vars.reaped)
    && ((place.MainSignal? || place.MainTimer? || place.MainChild?) && s.vars.child ==> s.world.leader.Zombie?)
    && (place.MainReady? || place.MainWait? ==> s.world.leader.Zombie?)
  }

  /** What holds inside terminate_and_reap: the finally block calls it only with a truthful answer pending. */
  predicate StopOk(s: State) {
    && s.vars.spawned
    && (s.pc == Grace(GraceWait) || s.pc == Kill(ReapWait) ==> s.world.leader.Zombie?)
    && (s.vars.caller.OnExit? ==> s.vars.outcome == Raised || s.vars.outcome == Exit(UNSETTLED))
  }

  predicate PlaceOk(s: State) {
    match s.pc
    case Authority(_) => !s.vars.spawned
    case Loop(place) => LoopOk(s, place)
    case Grace(_) => StopOk(s)
    case Kill(_) => StopOk(s)
    case End(place) =>
      Truthful(s.world, s.vars.outcome) && CleanedUp(s.vars, place)
  }

  /** How far the finally block is. */
  function Cleaned(place: EndPlace): nat {
    match place
    case Finally => 0
    case ClosePid => 0
    case CloseAuthority => 1
    case CloseSignal => 2
    case CloseTimer => 3
    case Restore => 4
    case Done => 5
  }

  /** What it has closed and restored so far. */
  predicate CleanedUp(v: Vars, place: EndPlace) {
    && (Cleaned(place) >= 1 ==> !v.fds.pid)
    && (Cleaned(place) >= 2 ==> !v.fds.authority)
    && (Cleaned(place) >= 3 ==> !v.fds.signal)
    && (Cleaned(place) >= 4 ==> !v.fds.timer)
    && (Cleaned(place) >= 5 ==> v.restored)
  }

  /** The program's variables agree with the world, and each place in the program with both. */
  predicate Consistent(s: State) {
    && (s.vars.spawned <==> !s.world.leader.Unborn?)
    && (s.vars.reaped <==> s.world.leader.Gone?)
    && (s.world.leader.Unborn? ==> s.world.alive == 0 && s.world.dead == 0)
    && (s.vars.fds.pid ==> s.vars.spawned)
    && PlaceOk(s)
  }

  lemma AuthorityKeepsConsistent(cfg: Config, s: State, a: Answer)
    requires Consistent(s) && s.pc.Authority?
    ensures Consistent(AuthorityStep(cfg, s, a))
  {
    match s.pc.authority
    case ReadAuthority =>
    case PollAuthority =>
    case AuthoritySignal =>
    case AuthorityTimer =>
    case Spawn =>
  }

  lemma LoopKeepsConsistent(cfg: Config, s: State, a: Answer)
    requires Consistent(s) && s.pc.Loop?
    ensures Consistent(LoopStep(cfg, s, a))
  {
    match s.pc.loop
    case OpenPidFd =>
    case PollMain =>
    case MainSignal =>
    case MainTimer =>
    case MainChild =>
    case MainReady =>
    case MainWait =>
    case MainGroup =>
  }

  lemma GraceKeepsConsistent(cfg: Config, s: State, a: Answer)
    requires Consistent(s) && s.pc.Grace?
    ensures Consistent(GraceStep(cfg, s, a))
  {
    match s.pc.grace
    case SendTerm =>
    case SetGrace =>
    case GraceTest =>
    case GraceReady =>
    case GraceWait =>
    case GraceGroup =>
      if Settled(s) {
        ReturnKeepsConsistent(s, true);
      }
    case GraceSleep =>
  }

  lemma KillKeepsConsistent(s: State, a: Answer)
    requires Consistent(s) && s.pc.Kill?
    ensures Consistent(KillStep(s, a))
  {
    match s.pc.kill
    case SendKill =>
    case SetReap =>
    case ReapTest =>
      if s.world.clock >= s.vars.reapDeadline {
        ReturnKeepsConsistent(s, false);
      }
    case ReapReady =>
    case ReapWait =>
    case ReapGroup =>
      if Settled(s) {
        ReturnKeepsConsistent(s, true);
      }
    case KillAgain =>
    case ReapSleep =>
  }

  lemma ReturnKeepsConsistent(s: State, ok: bool)
    requires Consistent(s) && InStop(s.pc) && (ok ==> Settled(s))
    ensures Consistent(Return(s, ok))
  {
  }

  lemma EndKeepsConsistent(s: State)
    requires Consistent(s) && s.pc.End?
    ensures Consistent(EndStep(s))
  {
    match s.pc.end
    case Finally =>
    case ClosePid =>
    case CloseAuthority =>
    case CloseSignal =>
    case CloseTimer =>
    case Restore =>
    case Done =>
  }

  lemma EnvironmentKeepsConsistent(s: State, e: Event)
    requires Consistent(s) && Possible(s.world, e)
    ensures Consistent(EnvironmentStep(s, e))
  {
  }

  lemma NextKeepsConsistent(cfg: Config, s: State, step: Step)
    requires Consistent(s) && CanStep(cfg, s, step)
    ensures Consistent(Next(cfg, s, step))
  {
    match step
    case Environment(e) => EnvironmentKeepsConsistent(s, e);
    case Program(a) =>
      match s.pc
      case Authority(_) => AuthorityKeepsConsistent(cfg, s, a);
      case Loop(_) => LoopKeepsConsistent(cfg, s, a);
      case Grace(_) => GraceKeepsConsistent(cfg, s, a);
      case Kill(_) => KillKeepsConsistent(s, a);
      case End(_) => EndKeepsConsistent(s);
  }

  // ------------------------------------------------------------------ how often and how long it stops

  /** terminate_and_reap runs at most twice, the second time only from the finally block. */
  predicate CallsOk(s: State) {
    match s.pc
    case Authority(_) => s.record.calls == 0
    case Loop(_) => s.record.calls == 0
    case Grace(_) => if s.vars.caller.OnExit? then 1 <= s.record.calls <= 2 else s.record.calls == 1
    case Kill(_) => if s.vars.caller.OnExit? then 1 <= s.record.calls <= 2 else s.record.calls == 1
    case End(place) => s.record.calls <= if place.Finally? then 1 else 2
  }

  /** When the latest call began, with the time the environment has taken since added on. */
  function Base(s: State): nat {
    s.record.calledAt + s.record.late
  }

  function GraceLimit(cfg: Config, s: State): nat {
    Base(s) + cfg.grace
  }

  function ReapLimit(cfg: Config, s: State): nat {
    Base(s) + cfg.grace + SLICE + FINAL_REAP
  }

  /** The clock is never past the deadline of its loop by more than one slice and the environment's own delay. */
  predicate TimingOk(cfg: Config, s: State) {
    match s.pc
    case Grace(place) =>
      (match place
       case SendTerm => s.world.clock <= Base(s)
       case SetGrace => s.world.clock <= Base(s)
       case GraceTest => s.vars.graceDeadline <= GraceLimit(cfg, s) && s.world.clock <= GraceLimit(cfg, s) + SLICE
       case _ => s.vars.graceDeadline <= GraceLimit(cfg, s) && s.world.clock <= GraceLimit(cfg, s))
    case Kill(place) =>
      (match place
       case SendKill => s.world.clock <= GraceLimit(cfg, s) + SLICE
       case SetReap => s.world.clock <= GraceLimit(cfg, s) + SLICE
       case ReapTest => s.vars.reapDeadline <= ReapLimit(cfg, s) && s.world.clock <= ReapLimit(cfg, s) + SLICE
       case _ => s.vars.reapDeadline <= ReapLimit(cfg, s) && s.world.clock <= ReapLimit(cfg, s))
    case _ => true
  }

  // ------------------------------------------------------------------ which signals it sends

  /** The signal was sent in this call, at least `wait` before `time`. */
  predicate SentBefore(sent: seq<Sent>, signal: int, call: nat, wait: nat, time: nat) {
    exists i :: 0 <= i < |sent| && sent[i].signal == signal && sent[i].call == call && sent[i].time + wait <= time
  }

  /** Each SIGKILL comes at least the grace period after a SIGTERM of the same call. */
  predicate KillsJustified(cfg: Config, sent: seq<Sent>) {
    forall j :: 0 <= j < |sent| && sent[j].signal == SIGKILL ==>
        SentBefore(sent[..j], SIGTERM, sent[j].call, cfg.grace, sent[j].time)
  }

  predicate SignalsOk(cfg: Config, s: State) {
    var sent, call, clock := s.record.sent, s.record.calls, s.world.clock;
    && KillsJustified(cfg, sent)
    && (call == 0 ==> sent == [])
    && (match s.pc
        case Grace(SendTerm) => true
        case Grace(SetGrace) => SentBefore(sent, SIGTERM, call, 0, clock)
        case Grace(_) => SentBefore(sent, SIGTERM, call, cfg.grace, s.vars.graceDeadline)
        case Kill(_) => SentBefore(sent, SIGTERM, call, cfg.grace, clock)
        case _ => true)
    && (match s.pc
        case Kill(SendKill) => true
        case Kill(SetReap) => SentBefore(sent, SIGKILL, call, 0, clock)
        case Kill(_) => SentBefore(sent, SIGKILL, call, FINAL_REAP, s.vars.reapDeadline)
        case _ => true)
  }

  lemma SentBeforeLater(sent: seq<Sent>, signal: int, call: nat, wait: nat, time: nat, more: nat, later: nat)
    requires SentBefore(sent, signal, call, wait, time) && time + more <= later
    ensures SentBefore(sent, signal, call, wait + more, later)
  {
  }

  lemma SentBeforeGrows(sent: seq<Sent>, x: Sent, signal: int, call: nat, wait: nat, time: nat)
    requires SentBefore(sent, signal, call, wait, time)
    ensures SentBefore(sent + [x], signal, call, wait, time)
  {
    var i :| 0 <= i < |sent| && sent[i].signal == signal && sent[i].call == call && sent[i].time + wait <= time;
    assert (sent + [x])[i] == sent[i];
  }

  lemma KillsJustifiedGrows(cfg: Config, sent: seq<Sent>, x: Sent)
    requires KillsJustified(cfg, sent)
    requires x.signal == SIGKILL ==> SentBefore(sent, SIGTERM, x.call, cfg.grace, x.time)
    ensures KillsJustified(cfg, sent + [x])
  {
    var more := sent + [x];
    forall j | 0 <= j < |more| && more[j].signal == SIGKILL
      ensures SentBefore(more[..j], SIGTERM, more[j].call, cfg.grace, more[j].time)
    {
      assert more[..j] == if j < |sent| then sent[..j] else sent;
    }
  }

  // ------------------------------------------------------------------ and that every step keeps all of it

  predicate Recorded(cfg: Config, s: State) {
    CallsOk(s) && TimingOk(cfg, s) && SignalsOk(cfg, s)
  }

  lemma GraceKeepsRecord(cfg: Config, s: State, a: Answer)
    requires Recorded(cfg, s) && s.pc.Grace? && a.slept <= SLICE
    ensures Recorded(cfg, GraceStep(cfg, s, a))
  {
    var sent, call, clock := s.record.sent, s.record.calls, s.world.clock;
    match s.pc.grace
    case SendTerm =>
      var x := Sent(SIGTERM, clock, call);
      KillsJustifiedGrows(cfg, sent, x);
      assert (sent + [x])[|sent|] == x;
    case SetGrace => SentBeforeLater(sent, SIGTERM, call, 0, clock, cfg.grace, clock + cfg.grace);
    case GraceTest =>
      if clock >= s.vars.graceDeadline {
        SentBeforeLater(sent, SIGTERM, call, cfg.grace, s.vars.graceDeadline, 0, clock);
      }
    case GraceReady =>
    case GraceWait =>
    case GraceGroup =>
    case GraceSleep =>
  }

  lemma KillKeepsRecord(cfg: Config, s: State, a: Answer)
    requires Recorded(cfg, s) && s.pc.Kill? && a.slept <= SLICE
    ensures Recorded(cfg, KillStep(s, a))
  {
    var sent, call, clock := s.record.sent, s.record.calls, s.world.clock;
    var x := Sent(SIGKILL, clock, call);
    match s.pc.kill
    case SendKill =>
      KillsJustifiedGrows(cfg, sent, x);
      SentBeforeGrows(sent, x, SIGTERM, call, cfg.grace, clock);
      assert (sent + [x])[|sent|] == x;
    case SetReap => SentBeforeLater(sent, SIGKILL, call, 0, clock, FINAL_REAP, clock + FINAL_REAP);
    case ReapTest =>
    case ReapReady =>
    case ReapWait =>
    case ReapGroup =>
    case KillAgain =>
      KillsJustifiedGrows(cfg, sent, x);
      SentBeforeGrows(sent, x, SIGTERM, call, cfg.grace, clock);
      SentBeforeGrows(sent, x, SIGKILL, call, FINAL_REAP, s.vars.reapDeadline);
    case ReapSleep => SentBeforeLater(sent, SIGTERM, call, cfg.grace, clock, 0, clock + a.slept);
  }

  lemma AuthorityKeepsRecord(cfg: Config, s: State, a: Answer)
    requires Recorded(cfg, s) && s.pc.Authority?
    ensures Recorded(cfg, AuthorityStep(cfg, s, a))
  {
    match s.pc.authority
    case ReadAuthority =>
    case PollAuthority =>
    case AuthoritySignal =>
    case AuthorityTimer =>
    case Spawn =>
  }

  lemma LoopKeepsRecord(cfg: Config, s: State, a: Answer)
    requires Recorded(cfg, s) && s.pc.Loop?
    ensures Recorded(cfg, LoopStep(cfg, s, a))
  {
    match s.pc.loop
    case OpenPidFd =>
    case PollMain =>
    case MainSignal =>
    case MainTimer =>
    case MainChild =>
    case MainReady =>
    case MainWait =>
    case MainGroup =>
  }

  lemma EndKeepsRecord(cfg: Config, s: State)
    requires Recorded(cfg, s) && s.pc.End?
    ensures Recorded(cfg, EndStep(s))
  {
  }

  lemma EnvironmentKeepsRecord(cfg: Config, s: State, e: Event)
    requires Recorded(cfg, s) && Possible(s.world, e)
    ensures Recorded(cfg, EnvironmentStep(s, e))
  {
    var sent, call, clock := s.record.sent, s.record.calls, s.world.clock;
    if e.Tick? {
      if s.pc == Grace(SetGrace) {
        SentBeforeLater(sent, SIGTERM, call, 0, clock, 0, clock + e.amount);
      } else if s.pc.Kill? {
        SentBeforeLater(sent, SIGTERM, call, cfg.grace, clock, 0, clock + e.amount);
        if s.pc == Kill(SetReap) {
          SentBeforeLater(sent, SIGKILL, call, 0, clock, 0, clock + e.amount);
        }
      }
    }
  }

  lemma NextKeepsRecord(cfg: Config, s: State, step: Step)
    requires Recorded(cfg, s) && CanStep(cfg, s, step)
    ensures Recorded(cfg, Next(cfg, s, step))
  {
    match step
    case Environment(e) => EnvironmentKeepsRecord(cfg, s, e);
    case Program(a) =>
      match s.pc
      case Authority(_) => AuthorityKeepsRecord(cfg, s, a);
      case Loop(_) => LoopKeepsRecord(cfg, s, a);
      case Grace(_) => GraceKeepsRecord(cfg, s, a);
      case Kill(_) => KillKeepsRecord(cfg, s, a);
      case End(_) => EndKeepsRecord(cfg, s);
  }

  // ------------------------------------------------------------------ that every call ends

  function Left(deadline: nat, clock: nat): nat {
    if clock < deadline then deadline - clock else 0
  }

  /** The turns of a loop that sleeps one slice in each. */
  function Turns(time: nat): nat {
    (time + SLICE - 1) / SLICE
  }

  /** An upper bound for the program steps from the first SIGKILL to the end of a call. */
  const KILL_STEPS := FINAL_REAP / SLICE * 7 + 9

  /** An upper bound for the program steps of a whole call. */
  function MaxSteps(cfg: Config): nat {
    KILL_STEPS + Turns(cfg.grace) * 6 + 7
  }

  /** How many program steps a call can still take: those of the turns left in its loop, and of what comes after. */
  function Measure(cfg: Config, s: State): nat
    requires InStop(s.pc)
  {
    var grace := Turns(Left(s.vars.graceDeadline, s.world.clock));
    var reap := Turns(Left(s.vars.reapDeadline, s.world.clock));
    match s.pc
    case Grace(place) =>
      KILL_STEPS + (match place
                    case SendTerm => Turns(cfg.grace) * 6 + 7
                    case SetGrace => Turns(cfg.grace) * 6 + 6
                    case GraceTest => if grace == 0 then 0 else grace * 6 + 5
                    case GraceReady => grace * 6 + 4
                    case GraceWait => grace * 6 + 3
                    case GraceGroup => grace * 6 + 2
                    case GraceSleep => grace * 6 + 1)
    case Kill(place) =>
      (match place
       case SendKill => KILL_STEPS - 1
       case SetReap => KILL_STEPS - 2
       case ReapTest => if reap == 0 then 0 else reap * 7 + 6
       case ReapReady => reap * 7 + 5
       case ReapWait => reap * 7 + 4
       case ReapGroup => reap * 7 + 3
       case KillAgain => reap * 7 + 2
       case ReapSleep => reap * 7 + 1)
    case _ => 0
  }

  /** Every program step of a call lowers the measure or returns. */
  lemma StopProgress(cfg: Config, s: State, a: Answer)
    requires InStop(s.pc) && CanStep(cfg, s, Program(a))
    ensures var t := Next(cfg, s, Program(a)); InStop(t.pc) ==> Measure(cfg, t) < Measure(cfg, s)
  {
    match s.pc {
      case Grace(place) =>
        match place {
          case SendTerm =>
          case SetGrace =>
          case GraceTest =>
          case GraceReady =>
          case GraceWait =>
          case GraceGroup =>
          case GraceSleep =>
        }
      case Kill(place) =>
        match place {
          case SendKill =>
          case SetReap =>
          case ReapTest =>
          case ReapReady =>
          case ReapWait =>
          case ReapGroup =>
          case KillAgain =>
          case ReapSleep =>
        }
      case _ =>
    }
  }

  /** The environment never raises it: time that passes only uses up the loop's deadline. */
  lemma EnvironmentKeepsMeasure(cfg: Config, s: State, e: Event)
    requires InStop(s.pc) && Possible(s.world, e)
    ensures Measure(cfg, EnvironmentStep(s, e)) <= Measure(cfg, s)
  {
    LaterLowersMeasure(cfg, s, EnvironmentStep(s, e));
  }

  lemma LaterLowersMeasure(cfg: Config, s: State, t: State)
    requires InStop(s.pc) && t.pc == s.pc && t.vars == s.vars && t.world.clock >= s.world.clock
    ensures Measure(cfg, t) <= Measure(cfg, s)
  {
    TurnsGrow(Left(t.vars.graceDeadline, t.world.clock), Left(s.vars.graceDeadline, s.world.clock));
    TurnsGrow(Left(t.vars.reapDeadline, t.world.clock), Left(s.vars.reapDeadline, s.world.clock));
    match s.pc
    case Grace(place) =>
    case Kill(place) =>
    case _ =>
  }

  lemma TurnsGrow(a: nat, b: nat)
    requires a <= b
    ensures Turns(a) <= Turns(b)
  {
  }

  // ------------------------------------------------------------------ whole runs

  ghost predicate StepsAt(cfg: Config, run: seq<State>, i: nat)
    requires i + 1 < |run|
  {
    exists step :: CanStep(cfg, run[i], step) && run[i + 1] == Next(cfg, run[i], step)
  }

  /** A run: program and environment steps in any order. */
  ghost predicate IsRun(cfg: Config, run: seq<State>) {
    && |run| > 0 && Init(cfg, run[0])
    && forall i: nat :: i + 1 < |run| ==> StepsAt(cfg, run, i)
  }

  lemma StepOf(cfg: Config, run: seq<State>, i: nat) returns (step: Step)
    requires IsRun(cfg, run) && i + 1 < |run|
    ensures CanStep(cfg, run[i], step) && run[i + 1] == Next(cfg, run[i], step)
  {
    assert StepsAt(cfg, run, i);
    step :| CanStep(cfg, run[i], step) && run[i + 1] == Next(cfg, run[i], step);
  }

  lemma {:induction false} RunKeeps(cfg: Config, run: seq<State>, n: nat)
    requires IsRun(cfg, run) && n < |run|
    ensures Consistent(run[n]) && Recorded(cfg, run[n])
  {
    if n > 0 {
      RunKeeps(cfg, run, n - 1);
      var step := StepOf(cfg, run, n - 1);
      NextKeepsConsistent(cfg, run[n - 1], step);
      NextKeepsRecord(cfg, run[n - 1], step);
    }
  }

  /** `steps` are the steps of the run. */
  ghost predicate Takes(cfg: Config, run: seq<State>, steps: seq<Step>) {
    |steps| + 1 == |run| && forall i: nat :: i < |steps| ==> TakesAt(cfg, run, steps, i)
  }

  predicate TakesAt(cfg: Config, run: seq<State>, steps: seq<Step>, i: nat)
    requires i < |steps| && i + 1 < |run|
  {
    CanStep(cfg, run[i], steps[i]) && run[i + 1] == Next(cfg, run[i], steps[i])
  }

  lemma {:induction false} RunTakes(cfg: Config, run: seq<State>) returns (steps: seq<Step>)
    requires IsRun(cfg, run)
    ensures Takes(cfg, run, steps)
    decreases |run|
  {
    if |run| == 1 {
      steps := [];
    } else {
      var init := run[..|run| - 1];
      forall i: nat | i + 1 < |init|
        ensures StepsAt(cfg, init, i)
      {
        assert StepsAt(cfg, run, i);
      }
      var before := RunTakes(cfg, init);
      var step := StepOf(cfg, run, |run| - 2);
      steps := before + [step];
      forall i: nat | i < |steps|
        ensures TakesAt(cfg, run, steps, i)
      {
        if i < |before| {
          assert TakesAt(cfg, init, before, i);
        }
      }
    }
  }

  /** How many of the steps from `n` to `m` are the program's. */
  function ProgramSteps(steps: seq<Step>, n: nat, m: nat): nat
    requires n <= m <= |steps|
    decreases m
  {
    if n == m then 0 else ProgramSteps(steps, n, m - 1) + if steps[m - 1].Program? then 1 else 0
  }

  ghost predicate StopsThrough(run: seq<State>, n: nat, m: nat) {
    m < |run| && forall k :: n <= k <= m ==> InStop(run[k].pc)
  }

  lemma {:induction false} MeasureCounts(cfg: Config, run: seq<State>, steps: seq<Step>, n: nat, m: nat)
    requires Takes(cfg, run, steps) && n <= m && StopsThrough(run, n, m)
    ensures ProgramSteps(steps, n, m) + Measure(cfg, run[m]) <= Measure(cfg, run[n])
    decreases m
  {
    if n < m {
      MeasureCounts(cfg, run, steps, n, m - 1);
      assert TakesAt(cfg, run, steps, m - 1);
      match steps[m - 1]
      case Program(a) => StopProgress(cfg, run[m - 1], a);
      case Environment(e) => EnvironmentKeepsMeasure(cfg, run[m - 1], e);
    }
  }

  /** Whatever the environment does, a call has returned by the time the program has taken MaxSteps steps in it. */
  lemma {:induction false} CallReturns(cfg: Config, run: seq<State>, steps: seq<Step>, n: nat, m: nat)
    requires IsRun(cfg, run) && Takes(cfg, run, steps) && n <= m < |run| && run[n].pc == Grace(SendTerm)
    requires ProgramSteps(steps, n, m) > MaxSteps(cfg)
    ensures exists k :: n <= k <= m && !InStop(run[k].pc)
  {
    if StopsThrough(run, n, m) {
      MeasureCounts(cfg, run, steps, n, m);
      assert false;
    }
  }

  // ------------------------------------------------------------------ that the program ends

  /** The deadlines of a call are never further away than when they were set. */
  predicate DeadlinesOk(cfg: Config, s: State) {
    match s.pc
    case Grace(place) =>
      place.SendTerm? || place.SetGrace? || Left(s.vars.graceDeadline, s.world.clock) <= cfg.grace
    case Kill(place) =>
      place.SendKill? || place.SetReap? || Left(s.vars.reapDeadline, s.world.clock) <= FINAL_REAP
    case _ => true
  }

  lemma GraceKeepsDeadlines(cfg: Config, s: State, a: Answer)
    requires DeadlinesOk(cfg, s) && s.pc.Grace?
    ensures DeadlinesOk(cfg, GraceStep(cfg, s, a))
  {
    match s.pc.grace
    case SendTerm =>
    case SetGrace =>
    case GraceTest =>
    case GraceReady =>
    case GraceWait =>
    case GraceGroup =>
    case GraceSleep =>
  }

  lemma KillKeepsDeadlines(cfg: Config, s: State, a: Answer)
    requires DeadlinesOk(cfg, s) && s.pc.Kill?
    ensures DeadlinesOk(cfg, KillStep(s, a))
  {
    match s.pc.kill
    case SendKill =>
    case SetReap =>
    case ReapTest =>
    case ReapReady =>
    case ReapWait =>
    case ReapGroup =>
    case KillAgain =>
    case ReapSleep =>
  }

  lemma OthersKeepDeadlines(cfg: Config, s: State, a: Answer)
    requires !InStop(s.pc) && Enabled(cfg, s)
    ensures DeadlinesOk(cfg, ProgramStep(cfg, s, a))
  {
    match s.pc
    case Authority(place) =>
    case Loop(place) =>
    case End(place) =>
    case _ =>
  }

  lemma {:induction false} RunKeepsDeadlines(cfg: Config, run: seq<State>, n: nat)
    requires IsRun(cfg, run) && n < |run|
    ensures DeadlinesOk(cfg, run[n])
  {
    if n > 0 {
      RunKeepsDeadlines(cfg, run, n - 1);
      var step := StepOf(cfg, run, n - 1);
      match step
      case Environment(e) =>
      case Program(a) =>
        match run[n - 1].pc
        case Grace(_) => GraceKeepsDeadlines(cfg, run[n - 1], a);
        case Kill(_) => KillKeepsDeadlines(cfg, run[n - 1], a);
        case _ => OthersKeepDeadlines(cfg, run[n - 1], a);
    }
  }

  lemma MeasureBound(cfg: Config, s: State)
    requires InStop(s.pc) && DeadlinesOk(cfg, s)
    ensures Measure(cfg, s) <= MaxSteps(cfg)
  {
  }

  /** How many steps the finally block can still take. */
  function EndTodo(cfg: Config, place: EndPlace): nat {
    match place
    case Finally => MaxSteps(cfg) + 7
    case ClosePid => 5
    case CloseAuthority => 4
    case CloseSignal => 3
    case CloseTimer => 2
    case Restore => 1
    case Done => 0
  }

  /** The steps of two calls of terminate_and_reap and of the finally block between and behind them. */
  function TwoCalls(cfg: Config): nat {
    2 * MaxSteps(cfg) + 8
  }

  /** A cancel signal is waiting to be read. */
  predicate CancelPending(w: World) {
    w.pending * CANCEL_SIGNALS != {}
  }

  function LoopTodo(cfg: Config, place: LoopPlace, timer: bool, cancel: bool): nat {
    TwoCalls(cfg) + (match place
                     case OpenPidFd => 4
                     case PollMain => 3
                     case MainSignal => if timer || cancel then 2 else 6
                     case MainTimer => if timer then 1 else 5
                     case MainChild => 4
                     case MainReady => 3
                     case MainWait => 2
                     case MainGroup => 1)
  }

  function AuthorityTodo(cfg: Config, place: AuthorityPlace, timer: bool, cancel: bool): nat {
    TwoCalls(cfg) + (match place
                     case ReadAuthority => 6
                     case PollAuthority => 3
                     case AuthoritySignal => if timer || cancel then 2 else 8
                     case AuthorityTimer => if timer then 1 else 7
                     case Spawn => 5)
  }

  /** The program has been given a reason to stop: the deadline, a cancel signal, or what it does already. */
  predicate Doomed(cfg: Config, s: State) {
    s.world.clock >= cfg.deadline || CancelPending(s.world) || InStop(s.pc) || s.pc.End?
  }

  /** Then, how many steps the whole program can still take. */
  function Todo(cfg: Config, s: State): nat {
    match s.pc
    case Authority(place) => AuthorityTodo(cfg, place, s.vars.timer, CancelPending(s.world))
    case Loop(place) => LoopTodo(cfg, place, s.vars.timer, CancelPending(s.world))
    case Grace(_) => Measure(cfg, s) + if s.vars.caller.OnExit? then 6 else MaxSteps(cfg) + 8
    case Kill(_) => Measure(cfg, s) + if s.vars.caller.OnExit? then 6 else MaxSteps(cfg) + 8
    case End(place) => EndTodo(cfg, place)
  }

  lemma AuthorityEnds(cfg: Config, s: State, a: Answer)
    requires s.pc.Authority? && Doomed(cfg, s) && CanStep(cfg, s, Program(a))
    ensures var t := AuthorityStep(cfg, s, a); Doomed(cfg, t) && Todo(cfg, t) < Todo(cfg, s)
  {
    match s.pc.authority
    case ReadAuthority =>
    case PollAuthority =>
    case AuthoritySignal =>
    case AuthorityTimer =>
    case Spawn =>
  }

  lemma LoopEnds(cfg: Config, s: State, a: Answer)
    requires s.pc.Loop? && Doomed(cfg, s) && CanStep(cfg, s, Program(a))
    ensures var t := LoopStep(cfg, s, a); Doomed(cfg, t) && Todo(cfg, t) < Todo(cfg, s)
  {
    match s.pc.loop
    case OpenPidFd =>
    case PollMain =>
    case MainSignal =>
    case MainTimer =>
    case MainChild =>
    case MainReady =>
    case MainWait =>
    case MainGroup =>
  }

  lemma StopEnds(cfg: Config, s: State, a: Answer)
    requires InStop(s.pc) && CanStep(cfg, s, Program(a))
    ensures var t := ProgramStep(cfg, s, a); Doomed(cfg, t) && Todo(cfg, t) < Todo(cfg, s)
  {
    var t := ProgramStep(cfg, s, a);
    StopProgress(cfg, s, a);
    if s.pc.Grace? && !(s.pc.grace.GraceGroup? && Settled(s)) {
      GraceMoves(cfg, s, a);
    } else if s.pc.Kill? && !(s.pc.kill.ReapGroup? && Settled(s))
              && !(s.pc.kill.ReapTest? && s.world.clock >= s.vars.reapDeadline) {
      KillMoves(s, a);
    }
  }

  lemma EndEnds(cfg: Config, s: State)
    requires s.pc.End? && s.pc != End(Done)
    ensures Doomed(cfg, EndStep(s)) && Todo(cfg, EndStep(s)) < Todo(cfg, s)
  {
    match s.pc.end
    case Finally =>
    case ClosePid =>
    case CloseAuthority =>
    case CloseSignal =>
    case CloseTimer =>
    case Restore =>
    case Done =>
  }

  lemma {:induction false} TodoCounts(cfg: Config, run: seq<State>, steps: seq<Step>, n: nat, m: nat)
    requires Takes(cfg, run, steps) && n <= m < |run| && Doomed(cfg, run[n])
    ensures Doomed(cfg, run[m])
    ensures ProgramSteps(steps, n, m) + Todo(cfg, run[m]) <= Todo(cfg, run[n])
    decreases m
  {
    if n < m {
      TodoCounts(cfg, run, steps, n, m - 1);
      assert TakesAt(cfg, run, steps, m - 1);
      StepEnds(cfg, run[m - 1], steps[m - 1]);
    }
  }

  /** A program step lowers what there is to do, and no step of the environment raises it. */
  lemma StepEnds(cfg: Config, s: State, step: Step)
    requires CanStep(cfg, s, step) && Doomed(cfg, s)
    ensures var t := Next(cfg, s, step);
            Doomed(cfg, t) && Todo(cfg, t) + (if step.Program? then 1 else 0) <= Todo(cfg, s)
  {
    match step
    case Environment(e) => EnvironmentKeepsTodo(cfg, s, e);
    case Program(a) =>
      match s.pc
      case Authority(_) => AuthorityEnds(cfg, s, a);
      case Loop(_) => LoopEnds(cfg, s, a);
      case Grace(_) => StopEnds(cfg, s, a);
      case Kill(_) => StopEnds(cfg, s, a);
      case End(_) => EndEnds(cfg, s);
  }

  lemma EnvironmentKeepsTodo(cfg: Config, s: State, e: Event)
    requires Possible(s.world, e) && Doomed(cfg, s)
    ensures var t := EnvironmentStep(s, e); Doomed(cfg, t) && Todo(cfg, t) <= Todo(cfg, s)
  {
    var t := EnvironmentStep(s, e);
    assert s.world.pending <= t.world.pending;
    assert CancelPending(s.world) ==> CancelPending(t.world) by {
      assert s.world.pending * CANCEL_SIGNALS <= t.world.pending * CANCEL_SIGNALS;
    }
    if InStop(s.pc) {
      EnvironmentKeepsMeasure(cfg, s, e);
    }
  }

  /**
   Once the deadline has passed or a cancel signal is pending, wherever the program is then, it is done after a bounded
   number of its own steps, about those of two calls of terminate_and_reap, whatever the environment does; and until
   then it can always take the next one.
   */
  lemma {:induction false} ProgramEnds(cfg: Config, run: seq<State>, steps: seq<Step>, n: nat, m: nat)
    requires IsRun(cfg, run) && Takes(cfg, run, steps) && n <= m < |run| && Doomed(cfg, run[n])
    ensures ProgramSteps(steps, n, m) >= 2 * MaxSteps(cfg) + 16 ==> run[m].pc == End(Done)
    ensures run[m].pc == End(Done) || Enabled(cfg, run[m])
  {
    TodoCounts(cfg, run, steps, n, m);
    RunKeepsDeadlines(cfg, run, n);
    if InStop(run[n].pc) {
      MeasureBound(cfg, run[n]);
    }
    RunKeeps(cfg, run, m);
  }

  /**
   A call that returns does so within the grace period, the five seconds of the reap window and one slice of ten
   milliseconds for each, plus outside delays.
   */
  lemma CallIsBounded(cfg: Config, run: seq<State>, n: nat)
    requires IsRun(cfg, run) && n + 1 < |run| && InStop(run[n].pc) && !InStop(run[n + 1].pc)
    ensures run[n].world.clock <= run[n].record.calledAt + run[n].record.late + cfg.grace + 5_020_000_000
  {
    RunKeeps(cfg, run, n);
    var step := StepOf(cfg, run, n);
  }

  /** The read that lets the command start: the authority file holds the token line and nothing else. */
  ghost predicate ReadsToken(cfg: Config, s: State) {
    cfg.token.Some? && s.pc == Authority(ReadAuthority) && s.world.file == Expected(cfg.token.value)
  }

  predicate Cleared(s: State) {
    s.pc == Authority(Spawn) || s.vars.spawned
  }

  /** Past the authority check no step spawns again or goes back. */
  lemma LoopKeepsSpawned(cfg: Config, s: State, a: Answer)
    requires s.pc.Loop?
    ensures LoopStep(cfg, s, a).vars.spawned == s.vars.spawned && !LoopStep(cfg, s, a).pc.Authority?
  {
    match s.pc.loop
    case OpenPidFd =>
    case PollMain =>
    case MainSignal =>
    case MainTimer =>
    case MainChild =>
    case MainReady =>
    case MainWait =>
    case MainGroup =>
  }

  lemma GraceKeepsSpawned(cfg: Config, s: State, a: Answer)
    requires s.pc.Grace?
    ensures GraceStep(cfg, s, a).vars.spawned == s.vars.spawned && !GraceStep(cfg, s, a).pc.Authority?
  {
    match s.pc.grace
    case GraceGroup =>
    case _ =>
  }

  lemma KillKeepsSpawned(s: State, a: Answer)
    requires s.pc.Kill?
    ensures KillStep(s, a).vars.spawned == s.vars.spawned && !KillStep(s, a).pc.Authority?
  {
    match s.pc.kill
    case ReapTest =>
    case ReapGroup =>
    case _ =>
  }

  lemma AuthorityClearedByRead(cfg: Config, s: State, a: Answer)
    requires s.pc.Authority? && cfg.token.Some? && Cleared(AuthorityStep(cfg, s, a)) && !Cleared(s)
    ensures ReadsToken(cfg, s)
  {
    ObservedExactly(s.world.file, cfg.token.value);
    match s.pc.authority
    case ReadAuthority =>
    case PollAuthority =>
    case AuthoritySignal =>
    case AuthorityTimer =>
    case Spawn =>
  }

  lemma ClearedByRead(cfg: Config, s: State, step: Step)
    requires CanStep(cfg, s, step) && cfg.token.Some? && Cleared(Next(cfg, s, step)) && !Cleared(s)
    ensures ReadsToken(cfg, s)
  {
    match step
    case Environment(_) =>
    case Program(a) =>
      match s.pc
      case Authority(_) => AuthorityClearedByRead(cfg, s, a);
      case Loop(_) => LoopKeepsSpawned(cfg, s, a);
      case Grace(_) => GraceKeepsSpawned(cfg, s, a);
      case Kill(_) => KillKeepsSpawned(s, a);
      case End(_) =>
  }

  /** Reading one octet more than the token line finds it exactly when the whole file is that line. */
  lemma ObservedExactly(file: string, token: string)
    ensures Observed(file, token) == Expected(token) <==> file == Expected(token)
  {
  }

  /** With an authority descriptor the command is spawned only after the exact token was read. */
  lemma {:induction false} SpawnNeedsToken(cfg: Config, run: seq<State>, n: nat)
    requires IsRun(cfg, run) && n < |run| && cfg.token.Some? && Cleared(run[n])
    ensures exists k :: 0 <= k < n && ReadsToken(cfg, run[k])
  {
    if n > 0 {
      var step := StepOf(cfg, run, n - 1);
      if Cleared(run[n - 1]) {
        SpawnNeedsToken(cfg, run, n - 1);
      } else {
        ClearedByRead(cfg, run[n - 1], step);
      }
    }
  }

  lemma SpawnedMeansCleared(cfg: Config, run: seq<State>, n: nat)
    requires IsRun(cfg, run) && n < |run| && cfg.token.Some? && !run[n].world.leader.Unborn?
    ensures exists k :: 0 <= k < n && ReadsToken(cfg, run[k])
  {
    RunKeeps(cfg, run, n);
    SpawnNeedsToken(cfg, run, n);
  }

  /** Once the program is done with nothing left of the command, nothing comes back. */
  lemma {:induction false} QuietForGood(cfg: Config, run: seq<State>, n: nat, m: nat)
    requires IsRun(cfg, run) && n <= m < |run|
    requires run[n].pc == End(Done) && Quiet(run[n].world)
    ensures run[m].pc == End(Done) && Quiet(run[m].world) && run[m].vars == run[n].vars
    decreases m
  {
    if n < m {
      QuietForGood(cfg, run, n, m - 1);
      RunKeeps(cfg, run, m - 1);
      var step := StepOf(cfg, run, m - 1);
    }
  }

  /**
   A normal exit code other than 125 means that nothing was spawned, or that the leader is reaped and its group
   is empty, now and at every later time.
   */
  lemma ExitIsTruthful(cfg: Config, run: seq<State>, n: nat, m: nat)
    requires IsRun(cfg, run) && n <= m < |run|
    requires run[n].pc == End(Done) && run[n].vars.outcome.Exit? && run[n].vars.outcome.code != UNSETTLED
    ensures Quiet(run[m].world)
    ensures var v := run[n].vars; !v.fds.pid && !v.fds.authority && !v.fds.signal && !v.fds.timer && v.restored
  {
    RunKeeps(cfg, run, n);
    QuietForGood(cfg, run, n, m);
  }

  /** waitpid never blocks, and the readiness that the event loop saw is always reapable. */
  lemma WaitNeverBlocks(cfg: Config, run: seq<State>, n: nat)
    requires IsRun(cfg, run) && n < |run|
    ensures run[n].pc == Loop(MainWait) || run[n].pc == Grace(GraceWait) || run[n].pc == Kill(ReapWait) ==>
            Enabled(cfg, run[n])
    ensures run[n].pc == Loop(MainGroup) ==> run[n].vars.status.Some?
  {
    RunKeeps(cfg, run, n);
  }

  /** At most two calls, and every SIGKILL at least the grace period after a SIGTERM of its own call. */
  lemma StopsGently(cfg: Config, run: seq<State>, n: nat)
    requires IsRun(cfg, run) && n < |run|
    ensures run[n].record.calls <= 2
    ensures KillsJustified(cfg, run[n].record.sent)
  {
    RunKeeps(cfg, run, n);
  }

  // ------------------------------------------------------------------ what the exit code says

  /** What has been seen in a run: the signals that were pending, and whether the leader left live members behind. */
  datatype History = History(signals: set<int>, leftovers: bool)

  predicate LeavesMembers(s: State) {
    s.pc == Loop(MainGroup) && GroupExists(s.world)
  }

  ghost function HistoryOf(run: seq<State>, n: nat): History
    requires n < |run|
  {
    var before := if n == 0 then History({}, false) else HistoryOf(run, n - 1);
    History(before.signals + run[n].world.pending, before.leftovers || LeavesMembers(run[n]))
  }

  predicate Within(h: History, more: History) {
    h.signals <= more.signals && (h.leftovers ==> more.leftovers)
  }

  predicate CancelSeen(h: History, signal: int) {
    signal in CANCEL_SIGNALS && signal in h.signals
  }

  /** Why a call of terminate_and_reap that is not the finally block's was made. */
  predicate Stopped(cfg: Config, w: World, h: History) {
    h.leftovers || w.clock >= cfg.deadline || exists signal :: signal in CANCEL_SIGNALS && CancelSeen(h, signal)
  }

  /**
   124 at or after the deadline; 128 and a cancel signal that was pending; the code of the reaped leader; or 125
   after one of the reasons for stopping the group.
   */
  predicate Explains(cfg: Config, w: World, h: History, code: int) {
    || (code == TIMED_OUT && w.clock >= cfg.deadline)
    || CancelSeen(h, code - 128)
    || (w.leader.Gone? && code == ExitCode(w.leader.raw))
    || (code == UNSETTLED && Stopped(cfg, w, h))
  }

  predicate TimerSeen(cfg: Config, s: State) {
    s.vars.timer ==> s.world.clock >= cfg.deadline
  }

  predicate OutcomeOk(cfg: Config, s: State, h: History) {
    s.vars.outcome.Exit? ==> Explains(cfg, s.world, h, s.vars.outcome.code)
  }

  /** Whoever called terminate_and_reap had its reason. */
  predicate CallerOk(cfg: Config, s: State, h: History) {
    match s.vars.caller
    case OnCancel => CancelSeen(h, s.vars.signal)
    case OnTimeout => s.world.clock >= cfg.deadline
    case OnLeftovers => h.leftovers
    case OnExit => OutcomeOk(cfg, s, h)
  }

  predicate Explained(cfg: Config, s: State, h: History) {
    match s.pc
    case Authority(place) => place.AuthoritySignal? || place.AuthorityTimer? ==> TimerSeen(cfg, s)
    case Loop(place) =>
      && (place.MainSignal? || place.MainTimer? ==> TimerSeen(cfg, s))
      && (place.MainGroup? ==> s.world.leader.Gone? && s.vars.status == Some(ExitCode(s.world.leader.raw)))
    case Grace(_) => CallerOk(cfg, s, h)
    case Kill(_) => CallerOk(cfg, s, h)
    case End(_) => OutcomeOk(cfg, s, h)
  }

  /** The history holds what this state shows. */
  predicate Holds(h: History, s: State) {
    s.world.pending <= h.signals && (LeavesMembers(s) ==> h.leftovers)
  }

  lemma AuthorityKeepsExplained(cfg: Config, s: State, a: Answer, h: History)
    requires Explained(cfg, s, h) && Holds(h, s) && s.pc.Authority?
    ensures Explained(cfg, AuthorityStep(cfg, s, a), h)
  {
    match s.pc.authority
    case ReadAuthority =>
    case PollAuthority =>
    case AuthoritySignal =>
      if Cancelled(s, a) {
        assert CancelSeen(h, 128 + a.signal - 128);
      }
    case AuthorityTimer =>
    case Spawn =>
  }

  lemma LoopKeepsExplained(cfg: Config, s: State, a: Answer, h: History)
    requires Consistent(s) && Explained(cfg, s, h) && Holds(h, s) && s.pc.Loop?
    ensures Explained(cfg, LoopStep(cfg, s, a), h)
  {
    match s.pc.loop
    case OpenPidFd =>
    case PollMain =>
    case MainSignal =>
    case MainTimer =>
    case MainChild =>
    case MainReady =>
    case MainWait =>
    case MainGroup =>
  }

  /** A reason outlasts whatever leaves caller, signal, outcome and a reaped leader alone. */
  lemma SameReason(cfg: Config, s: State, t: State, h: History)
    requires CallerOk(cfg, s, h) && t.vars.caller == s.vars.caller && t.vars.signal == s.vars.signal
    requires t.vars.outcome == s.vars.outcome && t.world.clock >= s.world.clock
    requires s.world.leader.Gone? ==> t.world.leader == s.world.leader
    ensures CallerOk(cfg, t, h)
  {
  }

  lemma GraceKeepsExplained(cfg: Config, s: State, a: Answer, h: History)
    requires Explained(cfg, s, h) && s.pc.Grace?
    ensures Explained(cfg, GraceStep(cfg, s, a), h)
  {
    if s.pc.grace.GraceGroup? && Settled(s) {
      ReturnIsExplained(cfg, s, true, h);
    } else {
      GraceMoves(cfg, s, a);
      SameReason(cfg, s, GraceStep(cfg, s, a), h);
    }
  }

  lemma GraceMoves(cfg: Config, s: State, a: Answer)
    requires s.pc.Grace? && !(s.pc.grace.GraceGroup? && Settled(s))
    ensures var t := GraceStep(cfg, s, a);
            && InStop(t.pc) && t.vars.caller == s.vars.caller && t.vars.signal == s.vars.signal
            && t.vars.outcome == s.vars.outcome && t.world.clock >= s.world.clock
            && (s.world.leader.Gone? ==> t.world.leader == s.world.leader)
  {
    match s.pc.grace
    case SendTerm =>
    case SetGrace =>
    case GraceTest =>
    case GraceReady =>
    case GraceWait =>
    case GraceGroup =>
    case GraceSleep =>
  }

  lemma KillKeepsExplained(cfg: Config, s: State, a: Answer, h: History)
    requires Explained(cfg, s, h) && s.pc.Kill?
    ensures Explained(cfg, KillStep(s, a), h)
  {
    if s.pc.kill.ReapGroup? && Settled(s) {
      ReturnIsExplained(cfg, s, true, h);
    } else if s.pc.kill.ReapTest? && s.world.clock >= s.vars.reapDeadline {
      ReturnIsExplained(cfg, s, false, h);
    } else {
      KillMoves(s, a);
      SameReason(cfg, s, KillStep(s, a), h);
    }
  }

  lemma KillMoves(s: State, a: Answer)
    requires s.pc.Kill? && !(s.pc.kill.ReapGroup? && Settled(s))
    requires !(s.pc.kill.ReapTest? && s.world.clock >= s.vars.reapDeadline)
    ensures var t := KillStep(s, a);
            && InStop(t.pc) && t.vars.caller == s.vars.caller && t.vars.signal == s.vars.signal
            && t.vars.outcome == s.vars.outcome && t.world.clock >= s.world.clock
            && (s.world.leader.Gone? ==> t.world.leader == s.world.leader)
  {
    match s.pc.kill
    case SendKill =>
    case SetReap =>
    case ReapTest =>
    case ReapReady =>
    case ReapWait =>
    case ReapGroup =>
    case KillAgain =>
    case ReapSleep =>
  }

  lemma ReturnIsExplained(cfg: Config, s: State, ok: bool, h: History)
    requires InStop(s.pc) && CallerOk(cfg, s, h)
    ensures OutcomeOk(cfg, Return(s, ok), h)
  {
    if s.vars.caller.OnCancel? {
      assert CancelSeen(h, 128 + s.vars.signal - 128);
    }
  }

  lemma NextKeepsExplained(cfg: Config, s: State, step: Step, h: History)
    requires Consistent(s) && Explained(cfg, s, h) && Holds(h, s) && CanStep(cfg, s, step)
    ensures Explained(cfg, Next(cfg, s, step), h)
  {
    match step
    case Environment(e) => LaterIsExplained(cfg, s, EnvironmentStep(s, e), h);
    case Program(a) =>
      match s.pc
      case Authority(_) => AuthorityKeepsExplained(cfg, s, a, h);
      case Loop(_) => LoopKeepsExplained(cfg, s, a, h);
      case Grace(_) => GraceKeepsExplained(cfg, s, a, h);
      case Kill(_) => KillKeepsExplained(cfg, s, a, h);
      case End(_) => EndKeepsExplained(cfg, s, h);
  }

  lemma EndKeepsExplained(cfg: Config, s: State, h: History)
    requires Explained(cfg, s, h) && s.pc.End?
    ensures Explained(cfg, EndStep(s), h)
  {
    match s.pc.end
    case Finally =>
    case ClosePid =>
    case CloseAuthority =>
    case CloseSignal =>
    case CloseTimer =>
    case Restore =>
    case Done =>
  }

  /** Time that passes and anything else that leaves the program and a reaped leader alone changes no reason. */
  lemma LaterIsExplained(cfg: Config, s: State, t: State, h: History)
    requires Explained(cfg, s, h) && t.pc == s.pc && t.vars == s.vars && t.world.clock >= s.world.clock
    requires s.world.leader.Gone? ==> t.world.leader == s.world.leader
    ensures Explained(cfg, t, h)
  {
  }

  lemma MoreIsExplained(cfg: Config, s: State, h: History, more: History)
    requires Explained(cfg, s, h) && Within(h, more)
    ensures Explained(cfg, s, more)
  {
    forall signal | CancelSeen(h, signal)
      ensures CancelSeen(more, signal)
    {
    }
  }

  lemma {:induction false} RunKeepsExplained(cfg: Config, run: seq<State>, n: nat)
    requires IsRun(cfg, run) && n < |run|
    ensures Explained(cfg, run[n], HistoryOf(run, n)) && Holds(HistoryOf(run, n), run[n])
  {
    if n > 0 {
      RunKeeps(cfg, run, n - 1);
      RunKeepsExplained(cfg, run, n - 1);
      var step := StepOf(cfg, run, n - 1);
      NextKeepsExplained(cfg, run[n - 1], step, HistoryOf(run, n - 1));
      MoreIsExplained(cfg, run[n], HistoryOf(run, n - 1), HistoryOf(run, n));
    }
  }

  ghost predicate WasPending(run: seq<State>, n: nat, signal: int)
    requires n < |run|
  {
    exists k :: 0 <= k <= n && signal in run[k].world.pending
  }

  ghost predicate LeftMembers(run: seq<State>, n: nat)
    requires n < |run|
  {
    exists k :: 0 <= k <= n && LeavesMembers(run[k])
  }

  lemma {:induction false} HistoryMeans(run: seq<State>, n: nat, signal: int)
    requires n < |run|
    ensures signal in HistoryOf(run, n).signals <==> WasPending(run, n, signal)
    ensures HistoryOf(run, n).leftovers <==> LeftMembers(run, n)
  {
    if n > 0 {
      HistoryMeans(run, n - 1, signal);
    }
  }

  /** The reasons for an exit code, in the states of the run up to the exit. */
  ghost predicate Reason(cfg: Config, run: seq<State>, n: nat, code: int)
    requires n < |run|
  {
    var w := run[n].world;
    || (code == TIMED_OUT && w.clock >= cfg.deadline)
    || (code - 128 in CANCEL_SIGNALS && WasPending(run, n, code - 128))
    || (w.leader.Gone? && code == ExitCode(w.leader.raw))
    || (code == UNSETTLED && StopReason(cfg, run, n))
  }

  ghost predicate StopReason(cfg: Config, run: seq<State>, n: nat)
    requires n < |run|
  {
    || LeftMembers(run, n)
    || run[n].world.clock >= cfg.deadline
    || exists signal :: signal in CANCEL_SIGNALS && WasPending(run, n, signal)
  }

  /** Every exit code of every run has its reason in the run. */
  lemma ExitCodeMeans(cfg: Config, run: seq<State>, n: nat)
    requires IsRun(cfg, run) && n < |run| && run[n].pc == End(Done) && run[n].vars.outcome.Exit?
    ensures Reason(cfg, run, n, run[n].vars.outcome.code)
  {
    RunKeepsExplained(cfg, run, n);
    var h, code := HistoryOf(run, n), run[n].vars.outcome.code;
    HistoryMeans(run, n, code - 128);
    forall signal | CancelSeen(h, signal)
      ensures signal in CANCEL_SIGNALS && WasPending(run, n, signal)
    {
      HistoryMeans(run, n, signal);
    }
  }

  /** So with no cancel signal, before the deadline and with no members left behind, it is the command's own code. */
  lemma UndisturbedExit(cfg: Config, run: seq<State>, n: nat)
    requires IsRun(cfg, run) && n < |run| && run[n].pc == End(Done) && run[n].vars.outcome.Exit?
    requires !StopReason(cfg, run, n)
    ensures run[n].world.leader.Gone? && run[n].vars.outcome.code == ExitCode(run[n].world.leader.raw)
  {
    ExitCodeMeans(cfg, run, n);
  }

  // ------------------------------------------------------------------ an ordinary exit

  /** The program takes `n` steps, if it can, with nothing else happening and every call answered by `a`. */
  function Alone(cfg: Config, s: State, a: Answer, n: nat): State
    decreases n
  {
    if n == 0 || !Enabled(cfg, s) then s else Alone(cfg, ProgramStep(cfg, s, a), a, n - 1)
  }

  lemma AloneStep(cfg: Config, s: State, a: Answer, n: nat) returns (t: State)
    requires n > 0 && Enabled(cfg, s)
    ensures t == ProgramStep(cfg, s, a) && Alone(cfg, s, a, n) == Alone(cfg, t, a, n - 1)
  {
    t := ProgramStep(cfg, s, a);
  }

  /** The steps of the finally block with nothing left to reap. */
  lemma {:induction false} AloneCleansUp(cfg: Config, s: State, a: Answer, n: nat)
    requires s.pc == End(Finally) && s.vars.reaped && n >= 6
    ensures var t := Alone(cfg, s, a, n);
            t.pc == End(Done) && t.vars.outcome == s.vars.outcome && t.world == s.world && t.record == s.record
  {
    var t := AloneStep(cfg, s, a, n);
    t := AloneStep(cfg, t, a, n - 1);
    t := AloneStep(cfg, t, a, n - 2);
    t := AloneStep(cfg, t, a, n - 3);
    t := AloneStep(cfg, t, a, n - 4);
    t := AloneStep(cfg, t, a, n - 5);
    assert !Enabled(cfg, t);
  }

  /** From the signals on: the timer has not run out, the leader is reaped and its group is empty. */
  lemma {:induction false} AloneReaps(cfg: Config, s: State, a: Answer, n: nat)
    requires s.pc == Loop(MainTimer) && s.vars.spawned && s.vars.fds.pid && !s.vars.reaped
    requires !s.vars.timer && s.vars.child
    requires s.world.leader.Zombie? && s.world.alive == 0 && s.world.dead == 0 && n >= 11
    ensures var t := Alone(cfg, s, a, n);
            && t.pc == End(Done) && t.vars.outcome == Exit(ExitCode(s.world.leader.raw))
            && Quiet(t.world) && t.record == s.record
  {
    var t := AloneStep(cfg, s, a, n);
    t := AloneStep(cfg, t, a, n - 1);
    t := AloneStep(cfg, t, a, n - 2);
    assert t == Go(s, Loop(MainWait));
    t := AloneStep(cfg, t, a, n - 3);
    t := AloneStep(cfg, t, a, n - 4);
    AloneCleansUp(cfg, t, a, n - 5);
  }

  /**
   A command that exits by itself, with no cancel signal, before the deadline and with nothing left over, has its own
   code passed on and is sent no signal; the SIGCHLD of its exit makes no difference.
   */
  lemma {:induction false} OwnCodePassedOn(cfg: Config, s: State, a: Answer, n: nat)
    requires s.pc == Loop(PollMain) && s.vars.spawned && s.vars.fds.pid && !s.vars.reaped && n >= 13
    requires s.world.leader.Zombie? && s.world.alive == 0 && s.world.dead == 0
    requires s.world.pending * CANCEL_SIGNALS == {} && s.world.clock < cfg.deadline
    ensures var t, raw := Alone(cfg, s, a, n), s.world.leader.raw;
            && t.pc == End(Done) && t.vars.outcome == Exit(if raw < 0 then 128 + -raw else raw)
            && Quiet(t.world) && t.record == s.record
  {
    var t := AloneStep(cfg, s, a, n);
    if s.world.pending == {} {
      AloneReaps(cfg, t, a, n - 1);
    } else {
      assert Cancelled(t, a) ==> a.signal in s.world.pending * CANCEL_SIGNALS;
      t := AloneStep(cfg, t, a, n - 1);
      AloneReaps(cfg, t, a, n - 2);
    }
  }
}
