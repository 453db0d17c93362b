/**
 What a broker does for those who start it, in every run with other brokers and the environment interleaved: unless it
 is refused or killed it takes its lock, announces it and answers every ping; if it is refused it answers nothing more
 and frees what it holds.
 */
module LockService {
  import opened LockBroker
  import opened Options

  // ------------------------------------------------------------------ steps of a run

  /** `steps` are the steps of the run. */
  ghost predicate Takes(digest: Key -> int, run: seq<State>, steps: seq<Step>) {
    |steps| + 1 == |run| && forall k: nat :: k < |steps| ==> TakesAt(digest, run, steps, k)
  }

  predicate TakesAt(digest: Key -> int, run: seq<State>, steps: seq<Step>, k: nat)
    requires k < |steps| && k + 1 < |run|
  {
    steps[k].broker < |run[k].brokers| && run[k + 1] == Next(digest, run[k], steps[k])
  }

  /** Every run has its steps. */
  lemma {:induction false} RunTakes(digest: Key -> int, run: seq<State>) returns (steps: seq<Step>)
    requires IsRun(digest, run)
    ensures Takes(digest, run, steps)
    decreases |run|
  {
    if |run| == 1 {
      steps := [];
    } else {
      var init := run[..|run| - 1];
      forall k: nat | k + 1 < |init|
        ensures StepsAt(digest, init, k)
      {
        assert StepsAt(digest, run, k);
      }
      var before := RunTakes(digest, init);
      var step := StepOf(digest, run, |run| - 2);
      steps := before + [step];
      forall k: nat | k < |steps|
        ensures TakesAt(digest, run, steps, k)
      {
        if k < |before| {
          assert TakesAt(digest, init, before, k);
        }
      }
    }
  }

  predicate IsOwn(step: Step, i: nat) {
    step.Program? && step.broker == i
  }

  /** How many of the steps from `n` to `m` are broker `i`'s own. */
  function OwnSteps(steps: seq<Step>, i: nat, n: nat, m: nat): nat
    requires n <= m <= |steps|
    decreases m
  {
    if n == m then 0 else OwnSteps(steps, i, n, m - 1) + if IsOwn(steps[m - 1], i) then 1 else 0
  }

  // ------------------------------------------------------------------ what refuses a broker

  /** What makes the next step of broker `i` give up, on this answer. */
  predicate Refuses(digest: Key -> int, s: State, i: nat, a: Answer)
    requires i < |s.brokers|
  {
    var b := s.brokers[i];
    var uid, dir, file := b.key.uid, b.view.dirHeld, b.view.fileHeld;
    match b.place
    case Bind => !a.ok || digest(b.key) in s.kernel.sockets
    case CheckDir => dir.kind != Directory || dir.owner != uid || dir.identity.mode != 0x1C0
    case CheckFile => file.kind != Regular || file.owner != uid || file.identity.links != 1
    case SetMode => !a.ok || file.identity.mode != 0x180
    case CompareDir =>
      || b.view.dirPath.None?
      || b.view.dirPath.value.identity.device != b.held.dirId.device
      || b.view.dirPath.value.identity.inode != b.held.dirId.inode
    case Flock => !a.ok || b.held.inode in s.kernel.locks
    case Verify(part, _) => CheckFails(b, part)
    case Wait => !a.request.Ping?
    case _ => !a.ok
  }

  /** A path that is gone; a path seen, or a descriptor, that is not what was recorded. */
  predicate CheckFails(b: Broker, part: Part) {
    match part
    case StatDir => b.view.dirPath.None?
    case HoldDir =>
      !Same(b.held.seen, b.held.dirId, Directory, b) || !Same(Some(b.view.dirHeld), b.held.dirId, Directory, b)
    case StatFile => b.view.filePath.None?
    case HoldFile =>
      !Same(b.held.seen, b.held.fileId, Regular, b) || !Same(Some(b.view.fileHeld), b.held.fileId, Regular, b)
  }

  /** The kind, the owner and the recorded identity. */
  predicate Same(info: Option<Info>, recorded: Identity, kind: Kind, b: Broker) {
    info == Some(Info(kind, b.key.uid, recorded))
  }

  // ------------------------------------------------------------------ a broker that is not refused

  /** The places of a broker that is not refused, by how many steps it has taken. */
  function PlaceAfter(count: nat): Place {
    if count < 15 then Opening(count) else Serving((count - 15) % 6)
  }

  function Opening(count: nat): Place {
    match count
    case 0 => Start
    case 1 => Bind
    case 2 => MakeDir
    case 3 => OpenDir
    case 4 => CheckDir
    case 5 => OpenFile
    case 6 => CheckFile
    case 7 => SetMode
    case 8 => CompareDir
    case 9 => Flock
    case 10 => Verify(StatDir, false)
    case 11 => Verify(HoldDir, false)
    case 12 => Verify(StatFile, false)
    case 13 => Verify(HoldFile, false)
    case _ => Announce
  }

  function Serving(turn: nat): Place {
    match turn
    case 0 => Wait
    case 1 => Verify(StatDir, true)
    case 2 => Verify(HoldDir, true)
    case 3 => Verify(StatFile, true)
    case 4 => Verify(HoldFile, true)
    case _ => Alive
  }

  /** The pings answered in so many steps. */
  function Answered(count: nat): nat {
    if count < 15 then 0 else (count - 15) / 6
  }

  /** The broker is where it comes to in `count` steps, having answered `pongs` pings before. */
  predicate At(b: Broker, count: nat, pongs: nat) {
    b.place == PlaceAfter(count) && b.pongs == pongs + Answered(count) && (b.announced <==> count >= 15)
  }

  /** A step of the run that does not refuse or kill the broker. */
  predicate Harmless(digest: Key -> int, s: State, step: Step, i: nat)
    requires i < |s.brokers|
  {
    step.broker == i ==>
      match step
      case Program(_, a) => !Refuses(digest, s, i, a)
      case Environment(_, e) => !e.Kill?
  }

  lemma OpeningAdvances(digest: Key -> int, s: State, i: nat, a: Answer, count: nat)
    requires i < |s.brokers| && count < 15 && s.brokers[i].place == Opening(count) && !Refuses(digest, s, i, a)
    ensures var b, c := s.brokers[i], BrokerStep(digest, s, i, a).brokers[i];
            && c.place == PlaceAfter(count + 1) && c.pongs == b.pongs
            && (if count == 14 then c.announced else c.announced == b.announced)
  {
    var b := s.brokers[i];
    match b.place
    case Verify(part, ping) => VerifyAdvances(b, part, ping);
    case _ =>
  }

  lemma VerifyAdvances(b: Broker, part: Part, ping: bool)
    requires !CheckFails(b, part)
    ensures var c := VerifyStep(b, part, ping);
            && c.pongs == b.pongs && c.announced == b.announced
            && c.place == match part
                          case StatDir => Verify(HoldDir, ping)
                          case HoldDir => Verify(StatFile, ping)
                          case StatFile => Verify(HoldFile, ping)
                          case HoldFile => if ping then Alive else Announce
  {
    match part
    case StatDir =>
    case HoldDir =>
    case StatFile =>
    case HoldFile =>
  }

  lemma ServingAdvances(digest: Key -> int, s: State, i: nat, a: Answer, turn: nat)
    requires i < |s.brokers| && turn < 6 && s.brokers[i].place == Serving(turn) && !Refuses(digest, s, i, a)
    ensures var b, c := s.brokers[i], BrokerStep(digest, s, i, a).brokers[i];
            && c.place == Serving((turn + 1) % 6) && c.announced == b.announced
            && c.pongs == b.pongs + if turn == 5 then 1 else 0
  {
    var b := s.brokers[i];
    match b.place
    case Verify(part, ping) => VerifyAdvances(b, part, ping);
    case _ =>
  }

  lemma TurnsAdvance(count: nat)
    requires count >= 15
    ensures (count + 1 - 15) % 6 == ((count - 15) % 6 + 1) % 6
    ensures Answered(count + 1) == Answered(count) + if (count - 15) % 6 == 5 then 1 else 0
  {
  }

  lemma StepAdvances(digest: Key -> int, s: State, step: Step, i: nat, count: nat, pongs: nat)
    requires step.broker < |s.brokers| && i < |s.brokers| && At(s.brokers[i], count, pongs)
    requires Harmless(digest, s, step, i)
    ensures var t := Next(digest, s, step);
            |t.brokers| == |s.brokers| && At(t.brokers[i], if IsOwn(step, i) then count + 1 else count, pongs)
  {
    if !IsOwn(step, i) {
      NextKeepsOthers(digest, s, step, i);
      assert step.Environment? && step.broker == i ==> !step.event.Kill?;
    } else if count < 15 {
      OpeningAdvances(digest, s, i, step.answer, count);
    } else {
      ServingAdvances(digest, s, i, step.answer, (count - 15) % 6);
      TurnsAdvance(count);
    }
  }

  /** No step from `n` to `m` refuses or kills the broker. */
  ghost predicate Spared(digest: Key -> int, run: seq<State>, steps: seq<Step>, i: nat, n: nat, m: nat) {
    n <= m <= |steps| && m < |run| && forall k :: n <= k < m ==> SparedAt(digest, run, steps, i, k)
  }

  predicate SparedAt(digest: Key -> int, run: seq<State>, steps: seq<Step>, i: nat, k: nat)
    requires k < |steps| && k < |run|
  {
    i < |run[k].brokers| && Harmless(digest, run[k], steps[k], i)
  }

  lemma {:induction false} Advances(digest: Key -> int, run: seq<State>, steps: seq<Step>, i: nat, n: nat, m: nat,
                                    count: nat, pongs: nat)
    requires Takes(digest, run, steps) && Spared(digest, run, steps, i, n, m)
    requires i < |run[n].brokers| && At(run[n].brokers[i], count, pongs)
    ensures i < |run[m].brokers| && At(run[m].brokers[i], count + OwnSteps(steps, i, n, m), pongs)
    decreases m
  {
    if n < m {
      assert SparedAt(digest, run, steps, i, m - 1) && TakesAt(digest, run, steps, m - 1);
      Advances(digest, run, steps, i, n, m - 1, count, pongs);
      StepAdvances(digest, run[m - 1], steps[m - 1], i, count + OwnSteps(steps, i, n, m - 1), pongs);
    }
  }

  /**
   A broker that is neither refused nor killed goes from place to place whatever the others do: after fifteen steps of
   its own it has announced its lock, and every six more answer one ping, with lock and name held throughout.
   */
  lemma {:induction false} ServesUnlessRefused(digest: Key -> int, run: seq<State>, steps: seq<Step>, i: nat, m: nat)
    requires IsRun(digest, run) && Takes(digest, run, steps) && i < |run[0].brokers|
    requires Spared(digest, run, steps, i, 0, m)
    ensures i < |run[m].brokers|
    ensures var b, count := run[m].brokers[i], OwnSteps(steps, i, 0, m);
            && b.place == PlaceAfter(count)
            && (b.announced <==> count >= 15) && b.pongs == (if count < 15 then 0 else (count - 15) / 6)
            && (b.authority <==> count >= 2) && (b.flock <==> count >= 10)
  {
    Advances(digest, run, steps, i, 0, m, 0, 0);
    RunKeeps(digest, run, m);
    assert BrokerOk(run[m].brokers[i]);
    PlaceHolds(OwnSteps(steps, i, 0, m));
  }

  lemma PlaceHolds(count: nat)
    ensures HoldsName(PlaceAfter(count)) <==> count >= 2
    ensures HoldsLock(PlaceAfter(count)) <==> count >= 10
    ensures !PlaceAfter(count).Killed? && (MayLock(PlaceAfter(count)) ==> count >= 10)
  {
  }

  /** A ping is answered: six steps after it the broker waits again, one pong later, with lock and name. */
  lemma {:induction false} PingAnswered(digest: Key -> int, run: seq<State>, steps: seq<Step>, i: nat, n: nat, m: nat)
    requires IsRun(digest, run) && Takes(digest, run, steps) && Spared(digest, run, steps, i, n, m)
    requires i < |run[n].brokers| && run[n].brokers[i].place == Wait && run[n].brokers[i].announced
    requires OwnSteps(steps, i, n, m) == 6
    ensures i < |run[m].brokers|
    ensures var b, c := run[n].brokers[i], run[m].brokers[i];
            c.place == Wait && c.pongs == b.pongs + 1 && c.flock && c.authority && c.announced
  {
    Advances(digest, run, steps, i, n, m, 15, run[n].brokers[i].pongs);
    RunKeeps(digest, run, m);
    assert BrokerOk(run[m].brokers[i]);
  }

  // ------------------------------------------------------------------ a broker that is refused

  /** It has seen a path that is not what was recorded, and will find that out, or it is on its way out. */
  predicate Leaving(b: Broker) {
    match b.place
    case Verify(HoldDir, _) => !Same(b.held.seen, b.held.dirId, Directory, b)
    case Verify(HoldFile, _) => !Same(b.held.seen, b.held.fileId, Regular, b)
    case _ => Phase(b.place) >= 4
  }

  /** How many steps it takes at most to be gone. */
  function LeaveSteps(b: Broker): nat {
    match b.place
    case CloseFile => 6
    case CloseDir => 5
    case CloseAuthority => 4
    case Abort => 4
    case Killed => 1 + (if b.flock then 1 else 0) + (if b.authority then 1 else 0)
    case Gone => 0
    case _ => 7
  }

  /** It is on its way out and has announced and answered nothing. */
  predicate GivesUp(b: Broker, c: Broker) {
    Leaving(c) && c.pongs == b.pongs && c.announced == b.announced
  }

  lemma OpeningRefused(digest: Key -> int, s: State, i: nat, a: Answer)
    requires i < |s.brokers| && Refuses(digest, s, i, a) && Phase(s.brokers[i].place) < 3
    ensures GivesUp(s.brokers[i], BrokerStep(digest, s, i, a).brokers[i])
  {
    var b := s.brokers[i];
    if !b.place.Bind? && !b.place.Flock? {
      LocalRefused(digest, s, i, a);
    }
  }

  lemma LocalRefused(digest: Key -> int, s: State, i: nat, a: Answer)
    requires i < |s.brokers| && Refuses(digest, s, i, a) && Phase(s.brokers[i].place) < 3
    requires !s.brokers[i].place.Bind? && !s.brokers[i].place.Flock?
    ensures GivesUp(s.brokers[i], LocalStep(s.brokers[i], a))
  {
    match s.brokers[i].place
    case Start =>
    case MakeDir =>
    case OpenDir =>
    case CheckDir =>
    case OpenFile =>
    case CheckFile =>
    case SetMode =>
    case CompareDir =>
  }

  lemma RefusedLeaves(digest: Key -> int, s: State, i: nat, a: Answer)
    requires i < |s.brokers| && Refuses(digest, s, i, a) && Phase(s.brokers[i].place) < 4
    ensures GivesUp(s.brokers[i], BrokerStep(digest, s, i, a).brokers[i])
  {
    var b := s.brokers[i];
    if Phase(b.place) < 3 {
      OpeningRefused(digest, s, i, a);
    } else if b.place.Verify? {
      FailedCheckLeaves(b, b.place.part, b.place.ping);
    }
  }

  lemma FailedCheckLeaves(b: Broker, part: Part, ping: bool)
    requires CheckFails(b, part)
    ensures var c := VerifyStep(b, part, ping); c.place == CloseFile && c.pongs == b.pongs && c.announced == b.announced
  {
    match part
    case StatDir =>
    case HoldDir =>
    case StatFile =>
    case HoldFile =>
  }

  /** A path that is not what was recorded is looked at. */
  predicate LooksWrong(b: Broker) {
    || (b.place.Verify? && b.place.part.StatDir? && !Same(b.view.dirPath, b.held.dirId, Directory, b))
    || (b.place.Verify? && b.place.part.StatFile? && !Same(b.view.filePath, b.held.fileId, Regular, b))
  }

  lemma WrongPathLeaves(digest: Key -> int, s: State, i: nat, a: Answer)
    requires i < |s.brokers| && LooksWrong(s.brokers[i])
    ensures GivesUp(s.brokers[i], BrokerStep(digest, s, i, a).brokers[i])
  {
  }

  lemma OwnStepLeaves(digest: Key -> int, s: State, i: nat, a: Answer)
    requires i < |s.brokers| && Leaving(s.brokers[i])
    ensures var b, c := s.brokers[i], BrokerStep(digest, s, i, a).brokers[i];
            && Leaving(c) && c.pongs == b.pongs && c.announced == b.announced
            && (b.place == Gone || LeaveSteps(c) < LeaveSteps(b))
  {
    match s.brokers[i].place
    case Verify(part, ping) =>
    case CloseFile =>
    case CloseDir =>
    case CloseAuthority =>
    case Abort =>
    case Killed =>
    case Gone =>
    case _ =>
  }

  lemma StepLeaves(digest: Key -> int, s: State, step: Step, i: nat)
    requires step.broker < |s.brokers| && i < |s.brokers| && Leaving(s.brokers[i])
    ensures var t := Next(digest, s, step);
            && |t.brokers| == |s.brokers| && Leaving(t.brokers[i])
            && t.brokers[i].pongs == s.brokers[i].pongs && t.brokers[i].announced == s.brokers[i].announced
            && (IsOwn(step, i) && s.brokers[i].place != Gone ==> LeaveSteps(t.brokers[i]) < LeaveSteps(s.brokers[i]))
            && LeaveSteps(t.brokers[i]) <= LeaveSteps(s.brokers[i])
  {
    if IsOwn(step, i) {
      OwnStepLeaves(digest, s, i, step.answer);
    } else {
      NextKeepsOthers(digest, s, step, i);
    }
  }

  lemma {:induction false} Leaves(digest: Key -> int, run: seq<State>, steps: seq<Step>, i: nat, n: nat, m: nat)
    requires Takes(digest, run, steps) && n <= m < |run| && i < |run[n].brokers| && Leaving(run[n].brokers[i])
    ensures i < |run[m].brokers| && Leaving(run[m].brokers[i])
    ensures run[m].brokers[i].pongs == run[n].brokers[i].pongs
    ensures run[m].brokers[i].announced == run[n].brokers[i].announced
    ensures OwnSteps(steps, i, n, m) + LeaveSteps(run[m].brokers[i]) <= LeaveSteps(run[n].brokers[i])
            || run[m].brokers[i].place == Gone
    decreases m
  {
    if n < m {
      Leaves(digest, run, steps, i, n, m - 1);
      assert TakesAt(digest, run, steps, m - 1);
      StepLeaves(digest, run[m - 1], steps[m - 1], i);
    }
  }

  /** Nothing in the kernel is broker `i`'s. */
  predicate HoldsNothing(k: Kernel, i: nat) {
    && (forall name :: name in k.sockets ==> k.sockets[name] != i)
    && (forall inode :: inode in k.locks ==> k.locks[inode] != i)
  }

  /**
   What refuses a broker ends it: it announces nothing and answers no ping any more, and after seven steps of its own
   it is gone and holds neither a name nor a lock. A failed check, the end of its input, an invalid request and the
   deadline are among what refuses it, and so is a path that is not what was recorded.
   */
  lemma {:induction false} RefusedReleases(digest: Key -> int, run: seq<State>, steps: seq<Step>, i: nat, n: nat,
                                           m: nat)
    requires IsRun(digest, run) && Takes(digest, run, steps) && n < m < |run| && i < |run[n].brokers|
    requires IsOwn(steps[n], i) && Phase(run[n].brokers[i].place) < 4
    requires Refuses(digest, run[n], i, steps[n].answer) || LooksWrong(run[n].brokers[i])
    ensures i < |run[m].brokers|
    ensures run[m].brokers[i].pongs == run[n].brokers[i].pongs
    ensures run[m].brokers[i].announced == run[n].brokers[i].announced
    ensures OwnSteps(steps, i, n + 1, m) >= 7 ==>
              run[m].brokers[i].place == Gone && HoldsNothing(run[m].kernel, i)
  {
    assert TakesAt(digest, run, steps, n);
    if LooksWrong(run[n].brokers[i]) {
      WrongPathLeaves(digest, run[n], i, steps[n].answer);
    } else {
      RefusedLeaves(digest, run[n], i, steps[n].answer);
    }
    Leaves(digest, run, steps, i, n + 1, m);
    if run[m].brokers[i].place == Gone {
      GoneHoldsNothing(digest, run, i, m);
    }
  }

  /** A broker that is gone, killed or not, holds nothing. */
  lemma GoneHoldsNothing(digest: Key -> int, run: seq<State>, i: nat, m: nat)
    requires IsRun(digest, run) && m < |run| && i < |run[m].brokers| && run[m].brokers[i].place == Gone
    ensures HoldsNothing(run[m].kernel, i)
  {
    RunKeeps(digest, run, m);
    RunKeepsBacked(digest, run, m);
    assert BrokerOk(run[m].brokers[i]);
  }

  // ------------------------------------------------------------------ what is recorded

  /** The directory's identity is recorded, and then the file's. */
  predicate HasDir(place: Place) {
    place.OpenFile? || place.CheckFile? || place.SetMode? || HasFile(place)
  }

  predicate HasFile(place: Place) {
    place.CompareDir? || place.Flock? || HoldsLock(place)
  }

  /** A private directory of the user's, as its descriptor showed it. */
  predicate SawDir(b: Broker, recorded: Identity) {
    && b.place == CheckDir && recorded == b.view.dirHeld.identity && recorded.mode == 0x1C0
    && b.view.dirHeld.kind == Directory && b.view.dirHeld.owner == b.key.uid
  }

  predicate SawFile(b: Broker, recorded: Identity) {
    b.place == SetMode && recorded == b.view.fileHeld.identity && recorded.mode == 0x180
  }

  /** What is recorded stays, and comes from the check before. */
  predicate RecordsBy(b: Broker, c: Broker) {
    && (HasDir(c.place) ==> (HasDir(b.place) && c.held.dirId == b.held.dirId) || SawDir(b, c.held.dirId))
    && (HasFile(c.place) ==> (HasFile(b.place) && c.held.fileId == b.held.fileId) || SawFile(b, c.held.fileId))
  }

  lemma OwnStepRecords(digest: Key -> int, s: State, i: nat, a: Answer)
    requires i < |s.brokers|
    ensures RecordsBy(s.brokers[i], BrokerStep(digest, s, i, a).brokers[i])
  {
    var b := s.brokers[i];
    match b.place
    case Verify(part, ping) => VerifyRecords(b, part, ping);
    case Start =>
    case Bind =>
    case MakeDir =>
    case OpenDir =>
    case CheckDir =>
    case OpenFile =>
    case CheckFile =>
    case SetMode =>
    case CompareDir =>
    case Flock =>
    case Announce =>
    case Wait =>
    case Alive =>
    case _ =>
  }

  lemma VerifyRecords(b: Broker, part: Part, ping: bool)
    requires b.place == Verify(part, ping)
    ensures RecordsBy(b, VerifyStep(b, part, ping))
  {
    match part
    case StatDir =>
    case HoldDir =>
    case StatFile =>
    case HoldFile =>
  }

  lemma StepRecords(digest: Key -> int, s: State, step: Step, i: nat)
    requires step.broker < |s.brokers| && i < |s.brokers|
    ensures |Next(digest, s, step).brokers| == |s.brokers|
    ensures RecordsBy(s.brokers[i], Next(digest, s, step).brokers[i])
  {
    if IsOwn(step, i) {
      OwnStepRecords(digest, s, i, step.answer);
    } else {
      NextKeepsOthers(digest, s, step, i);
    }
  }

  /** The directory identity that later checks compare with is the one of the descriptor when it was checked. */
  lemma {:induction false} DirRecorded(digest: Key -> int, run: seq<State>, i: nat, m: nat) returns (k: nat)
    requires IsRun(digest, run) && m < |run| && i < |run[m].brokers| && HasDir(run[m].brokers[i].place)
    ensures k < m && i < |run[k].brokers| && SawDir(run[k].brokers[i], run[m].brokers[i].held.dirId)
    decreases m
  {
    RunKeeps(digest, run, m);
    RunKeeps(digest, run, m - 1);
    var step := StepOf(digest, run, m - 1);
    StepRecords(digest, run[m - 1], step, i);
    k := m - 1;
    if !SawDir(run[k].brokers[i], run[m].brokers[i].held.dirId) {
      k := DirRecorded(digest, run, i, m - 1);
    }
  }

  /** And so is the file's, once its mode was set. */
  lemma {:induction false} FileRecorded(digest: Key -> int, run: seq<State>, i: nat, m: nat) returns (k: nat)
    requires IsRun(digest, run) && m < |run| && i < |run[m].brokers| && HasFile(run[m].brokers[i].place)
    ensures k < m && i < |run[k].brokers| && SawFile(run[k].brokers[i], run[m].brokers[i].held.fileId)
    decreases m
  {
    RunKeeps(digest, run, m);
    RunKeeps(digest, run, m - 1);
    var step := StepOf(digest, run, m - 1);
    StepRecords(digest, run[m - 1], step, i);
    k := m - 1;
    if !SawFile(run[k].brokers[i], run[m].brokers[i].held.fileId) {
      k := FileRecorded(digest, run, i, m - 1);
    }
  }
}
