/**
 The campaign lock broker of scripts/campaign-lock-helper.py: any number of brokers, a kernel that keeps abstract
 socket names and advisory locks, and an environment that may change every file and directory between any two
 steps and kill a broker at any time.
 */
module LockBroker {
  import opened Options

  const DIR_MODE := 0x1C0   // 0700
  const FILE_MODE := 0x180  // 0600

  datatype Kind = Directory | Regular | Special

  /** The attributes that must stay the same while the lock is held. */
  datatype Identity = Identity(device: int, inode: int, mode: int, links: int)

  datatype Info = Info(kind: Kind, owner: int, identity: Identity)

  /** What a broker was started for; `uid` is the user it runs as. */
  datatype Key = Key(uid: int, root: string, namespace: string)

  /** What stat says of a broker's directory and file, by path and by descriptor; paths may name nothing. */
  datatype View = View(dirPath: Option<Info>, filePath: Option<Info>, dirHeld: Info, fileHeld: Info)

  /** The kernel: who has bound each socket name and who has locked each inode. */
  datatype Kernel = Kernel(sockets: map<int, nat>, locks: map<int, nat>)

  /** The system calls of the two identity checks: a stat of the path, then an fstat of the descriptor. */
  datatype Part = StatDir | HoldDir | StatFile | HoldFile

  /** Where a broker is; `ping` tells the checks that answer a ping from those before the announcement. */
  datatype Place =
    | Start | Bind | MakeDir | OpenDir | CheckDir | OpenFile | CheckFile | SetMode | CompareDir | Flock
    | Verify(part: Part, ping: bool) | Announce | Wait | Alive
    | CloseFile | CloseDir | CloseAuthority | Abort | Killed | Gone

  /** The inode it opened, the identities it recorded, and what the latest stat of a path said. */
  datatype Held = Held(inode: int, dirId: Identity, fileId: Identity, seen: Option<Info>)

  /**
   One broker: whether it has its socket name and its lock; `announced` is set by "locked", `pongs` counts "alive".
   */
  datatype Broker = Broker(
    key: Key, place: Place, authority: bool, flock: bool, held: Held, announced: bool, pongs: nat, view: View)

  datatype State = State(kernel: Kernel, brokers: seq<Broker>)

  /** What the environment answers to a system call: whether it works, which inode opens, what a request holds. */
  datatype Request = Ping | EndOfInput | Invalid | Deadline
  datatype Answer = Answer(ok: bool, inode: int, request: Request)

  // ------------------------------------------------------------------ the checks

  /** What the path or the descriptor says has the kind, the owner and the identity expected of it. */
  predicate InfoOk(info: Info, expected: Identity, kind: Kind, owner: int) {
    info.kind == kind && info.owner == owner && info.identity == expected
  }

  predicate PathOk(path: Option<Info>, expected: Identity, kind: Kind, owner: int) {
    path.Some? && InfoOk(path.value, expected, kind, owner)
  }

  /** require_held_identity, with what the stat of the path said and what the descriptor says now. */
  predicate DirHeld(b: Broker) {
    && PathOk(b.held.seen, b.held.dirId, Directory, b.key.uid)
    && InfoOk(b.view.dirHeld, b.held.dirId, Directory, b.key.uid)
  }

  predicate FileHeld(b: Broker) {
    && PathOk(b.held.seen, b.held.fileId, Regular, b.key.uid)
    && InfoOk(b.view.fileHeld, b.held.fileId, Regular, b.key.uid)
  }

  // ------------------------------------------------------------------ steps of one broker

  function Go(b: Broker, place: Place): Broker {
    b.(place := place)
  }

  /** Steps that touch neither the kernel's sockets nor its locks; a failed check goes to the descriptors to close. */
  function LocalStep(b: Broker, a: Answer): Broker {
    match b.place
    case Start => Go(b, if a.ok then Bind else Gone)
    case MakeDir => Go(b, if a.ok then OpenDir else Abort)
    case OpenDir => Go(b, if a.ok then CheckDir else Abort)
    case CheckDir =>
      var info := b.view.dirHeld;
      if info.kind == Directory && info.owner == b.key.uid && info.identity.mode == DIR_MODE then
        b.(place := OpenFile, held := b.held.(dirId := info.identity))
      else Go(b, CloseDir)
    case OpenFile => if a.ok then b.(place := CheckFile, held := b.held.(inode := a.inode)) else Go(b, CloseDir)
    case CheckFile =>
      var info := b.view.fileHeld;
      Go(b, if info.kind == Regular && info.owner == b.key.uid && info.identity.links == 1 then SetMode else CloseFile)
    case SetMode =>
      var info := b.view.fileHeld;
      if a.ok && info.identity.mode == FILE_MODE then b.(place := CompareDir, held := b.held.(fileId := info.identity))
      else Go(b, CloseFile)
    case CompareDir =>
      var path := b.view.dirPath;
      Go(b, if && path.Some?
               && path.value.identity.device == b.held.dirId.device
               && path.value.identity.inode == b.held.dirId.inode
            then Flock else CloseFile)
    case Verify(part, ping) => VerifyStep(b, part, ping)
    case Announce => if a.ok then b.(place := Wait, announced := true) else Go(b, CloseFile)
    case Wait => Go(b, if a.request.Ping? then Verify(StatDir, true) else CloseFile)
    case Alive => if a.ok then b.(place := Wait, pongs := b.pongs + 1) else Go(b, CloseFile)
    case CloseDir => Go(b, CloseAuthority)
    case _ => b
  }

  function VerifyStep(b: Broker, part: Part, ping: bool): Broker {
    match part
    case StatDir => See(b, b.view.dirPath, Verify(HoldDir, ping))
    case HoldDir => Go(b, if DirHeld(b) then Verify(StatFile, ping) else CloseFile)
    case StatFile => See(b, b.view.filePath, Verify(HoldFile, ping))
    case HoldFile => Go(b, if FileHeld(b) then (if ping then Alive else Announce) else CloseFile)
  }

  /** A stat that finds nothing is an error. */
  function See(b: Broker, path: Option<Info>, place: Place): Broker {
    b.(place := if path.Some? then place else CloseFile, held := b.held.(seen := path))
  }

  predicate IsLocal(place: Place) {
    && !place.Bind? && !place.Flock? && !place.CloseFile? && !place.CloseAuthority?
    && !place.Abort? && !place.Killed? && !place.Gone?
  }

  /** The name a broker binds: a digest of user, root and namespace. */
  function Name(digest: Key -> int, b: Broker): int {
    digest(b.key)
  }

  /** One step of broker `i`; the kernel closes a killed broker's descriptors in the order it answers. */
  function BrokerStep(digest: Key -> int, s: State, i: nat, a: Answer): State
    requires i < |s.brokers|
  {
    var b, k := s.brokers[i], s.kernel;
    var name := Name(digest, b);
    match b.place
    case Bind =>
      if name in k.sockets || !a.ok then Put(s, i, k, Go(b, Gone))
      else Put(s, i, k.(sockets := k.sockets[name := i]), b.(place := MakeDir, authority := true))
    case Flock =>
      if b.held.inode in k.locks || !a.ok then Put(s, i, k, Go(b, CloseFile))
      else Put(s, i, k.(locks := k.locks[b.held.inode := i]), b.(place := Verify(StatDir, false), flock := true))
    case CloseFile => DropLock(s, i, CloseDir)
    case CloseAuthority => DropName(digest, s, i, Gone)
    case Abort => DropName(digest, s, i, Gone)
    case Killed =>
      if b.flock && (a.ok || !b.authority) then DropLock(s, i, Killed)
      else if b.authority then DropName(digest, s, i, Killed)
      else Put(s, i, k, Go(b, Gone))
    case Gone => s
    case _ => Put(s, i, k, LocalStep(b, a))
  }

  function Put(s: State, i: nat, kernel: Kernel, b: Broker): State
    requires i < |s.brokers|
  {
    State(kernel, s.brokers[i := b])
  }

  function DropLock(s: State, i: nat, place: Place): State
    requires i < |s.brokers|
  {
    var b := s.brokers[i];
    Put(s, i, if b.flock then s.kernel.(locks := s.kernel.locks - {b.held.inode}) else s.kernel,
        b.(place := place, flock := false))
  }

  function DropName(digest: Key -> int, s: State, i: nat, place: Place): State
    requires i < |s.brokers|
  {
    var b := s.brokers[i];
    Put(s, i, if b.authority then s.kernel.(sockets := s.kernel.sockets - {Name(digest, b)}) else s.kernel,
        b.(place := place, authority := false))
  }

  /** The environment changes what a broker would see of its files, or kills it. */
  datatype Event = Replace(view: View) | Kill

  function EnvironmentStep(s: State, i: nat, e: Event): State
    requires i < |s.brokers|
  {
    var b := s.brokers[i];
    match e
    case Replace(view) => Put(s, i, s.kernel, b.(view := view))
    case Kill => if b.place.Gone? then s else Put(s, i, s.kernel, Go(b, Killed))
  }

  datatype Step = Program(broker: nat, answer: Answer) | Environment(broker: nat, event: Event)

  function Next(digest: Key -> int, s: State, step: Step): State
    requires step.broker < |s.brokers|
  {
    match step
    case Program(i, a) => BrokerStep(digest, s, i, a)
    case Environment(i, e) => EnvironmentStep(s, i, e)
  }

  predicate Init(s: State) {
    && s.kernel == Kernel(map[], map[])
    && forall i :: 0 <= i < |s.brokers| ==>
         && s.brokers[i].place == Start && !s.brokers[i].authority && !s.brokers[i].flock
         && !s.brokers[i].announced && s.brokers[i].pongs == 0
  }

  // ------------------------------------------------------------------ what every step keeps

  /** From binding its name to closing it the program holds the name; from locking to closing it holds the lock. */
  predicate HoldsName(place: Place) {
    !(place.Start? || place.Bind? || place.Killed? || place.Gone?)
  }

  predicate HoldsLock(place: Place) {
    place.Verify? || place.Announce? || place.Wait? || place.Alive?
  }

  predicate MayLock(place: Place) {
    HoldsLock(place) || place.CloseFile? || place.Killed?
  }

  predicate BrokerOk(b: Broker) {
    && (HoldsName(b.place) ==> b.authority)
    && (b.authority ==> HoldsName(b.place) || b.place.Killed?)
    && (HoldsLock(b.place) ==> b.flock)
    && (b.flock ==> MayLock(b.place))
  }

  /** The kernel and a broker agree on what the broker holds. */
  predicate Owns(digest: Key -> int, k: Kernel, i: nat, b: Broker) {
    && (b.authority ==> Name(digest, b) in k.sockets && k.sockets[Name(digest, b)] == i)
    && (b.flock ==> b.held.inode in k.locks && k.locks[b.held.inode] == i)
  }

  predicate Valid(digest: Key -> int, s: State) {
    forall i :: 0 <= i < |s.brokers| ==> BrokerOk(s.brokers[i]) && Owns(digest, s.kernel, i, s.brokers[i])
  }

  /** Nothing is left behind: every bound name and every lock belongs to a broker that still has it. */
  predicate Backed(digest: Key -> int, s: State) {
    && (forall name :: name in s.kernel.sockets ==>
          var j := s.kernel.sockets[name];
          j < |s.brokers| && s.brokers[j].authority && Name(digest, s.brokers[j]) == name)
    && (forall inode :: inode in s.kernel.locks ==>
          var j := s.kernel.locks[inode];
          j < |s.brokers| && s.brokers[j].flock && s.brokers[j].held.inode == inode)
  }

  lemma LocalKeeps(b: Broker, a: Answer)
    requires BrokerOk(b) && IsLocal(b.place)
    ensures BrokerOk(LocalStep(b, a))
    ensures LocalStep(b, a).authority == b.authority && LocalStep(b, a).flock == b.flock && LocalStep(b, a).key == b.key
    ensures b.flock ==> LocalStep(b, a).held.inode == b.held.inode
  {
  }

  /** Replacing one broker and the kernel keeps validity when nobody else loses anything. */
  lemma PutKeeps(digest: Key -> int, s: State, i: nat, kernel: Kernel, b: Broker)
    requires Valid(digest, s) && i < |s.brokers|
    requires BrokerOk(b) && Owns(digest, kernel, i, b)
    requires forall j :: 0 <= j < |s.brokers| && j != i ==> Owns(digest, kernel, j, s.brokers[j])
    ensures Valid(digest, Put(s, i, kernel, b))
  {
  }

  lemma DropNameKeeps(digest: Key -> int, s: State, i: nat, place: Place)
    requires Valid(digest, s) && i < |s.brokers|
    requires (place == Gone && !s.brokers[i].flock) || place == Killed
    ensures Valid(digest, DropName(digest, s, i, place))
  {
    var t := DropName(digest, s, i, place);
    forall j | 0 <= j < |s.brokers| && j != i
      ensures Owns(digest, t.kernel, j, s.brokers[j])
    {
      assert Owns(digest, s.kernel, j, s.brokers[j]) && Owns(digest, s.kernel, i, s.brokers[i]);
    }
    PutKeeps(digest, s, i, t.kernel, t.brokers[i]);
  }

  lemma DropLockKeeps(digest: Key -> int, s: State, i: nat, place: Place)
    requires Valid(digest, s) && i < |s.brokers|
    requires (place == CloseDir && s.brokers[i].authority) || place == Killed
    ensures Valid(digest, DropLock(s, i, place))
  {
    var t := DropLock(s, i, place);
    forall j | 0 <= j < |s.brokers| && j != i
      ensures Owns(digest, t.kernel, j, s.brokers[j])
    {
      assert Owns(digest, s.kernel, j, s.brokers[j]) && Owns(digest, s.kernel, i, s.brokers[i]);
    }
    PutKeeps(digest, s, i, t.kernel, t.brokers[i]);
  }

  lemma BrokerStepKeeps(digest: Key -> int, s: State, i: nat, a: Answer)
    requires Valid(digest, s) && i < |s.brokers|
    ensures Valid(digest, BrokerStep(digest, s, i, a))
  {
    var b, t := s.brokers[i], BrokerStep(digest, s, i, a);
    assert BrokerOk(b) && Owns(digest, s.kernel, i, b);
    match b.place
    case Bind => PutKeeps(digest, s, i, t.kernel, t.brokers[i]);
    case Flock => PutKeeps(digest, s, i, t.kernel, t.brokers[i]);
    case CloseFile => DropLockKeeps(digest, s, i, CloseDir);
    case CloseAuthority => DropNameKeeps(digest, s, i, Gone);
    case Abort => DropNameKeeps(digest, s, i, Gone);
    case Killed =>
      if b.flock && (a.ok || !b.authority) {
        DropLockKeeps(digest, s, i, Killed);
      } else if b.authority {
        DropNameKeeps(digest, s, i, Killed);
      } else {
        PutKeeps(digest, s, i, s.kernel, Go(b, Gone));
      }
    case Gone =>
    case _ =>
      LocalKeeps(b, a);
      PutKeeps(digest, s, i, s.kernel, LocalStep(b, a));
  }

  lemma NextKeeps(digest: Key -> int, s: State, step: Step)
    requires Valid(digest, s) && step.broker < |s.brokers|
    ensures Valid(digest, Next(digest, s, step))
    ensures |Next(digest, s, step).brokers| == |s.brokers|
  {
    match step
    case Program(i, a) => BrokerStepKeeps(digest, s, i, a);
    case Environment(i, e) =>
      if !(e.Kill? && s.brokers[i].place.Gone?) {
        PutKeeps(digest, s, i, s.kernel, Next(digest, s, step).brokers[i]);
      }
  }

  // ------------------------------------------------------------------ exclusion and nesting

  /** The broker has announced "locked" and has not begun to release. */
  predicate InForce(b: Broker) {
    b.announced && HoldsLock(b.place)
  }

  /** Brokers whose names collide, in particular brokers of one key, never hold their names together. */
  lemma NamesExclude(digest: Key -> int, s: State, i: nat, j: nat)
    requires Valid(digest, s) && i < |s.brokers| && j < |s.brokers| && i != j
    requires digest(s.brokers[i].key) == digest(s.brokers[j].key)
    ensures !(s.brokers[i].authority && s.brokers[j].authority)
  {
    assert Owns(digest, s.kernel, i, s.brokers[i]) && Owns(digest, s.kernel, j, s.brokers[j]);
  }

  // ------------------------------------------------------------------ whole runs

  ghost predicate StepsAt(digest: Key -> int, run: seq<State>, n: nat)
    requires n + 1 < |run|
  {
    exists step: Step :: step.broker < |run[n].brokers| && run[n + 1] == Next(digest, run[n], step)
  }

  /** A run: steps of any brokers and of the environment, in any order. */
  ghost predicate IsRun(digest: Key -> int, run: seq<State>) {
    && |run| > 0 && Init(run[0])
    && forall n: nat :: n + 1 < |run| ==> StepsAt(digest, run, n)
  }

  lemma StepOf(digest: Key -> int, run: seq<State>, n: nat) returns (step: Step)
    requires IsRun(digest, run) && n + 1 < |run|
    ensures step.broker < |run[n].brokers| && run[n + 1] == Next(digest, run[n], step)
  {
    assert StepsAt(digest, run, n);
    step :| step.broker < |run[n].brokers| && run[n + 1] == Next(digest, run[n], step);
  }

  lemma {:induction false} RunKeeps(digest: Key -> int, run: seq<State>, n: nat)
    requires IsRun(digest, run) && n < |run|
    ensures Valid(digest, run[n]) && |run[n].brokers| == |run[0].brokers|
  {
    if n > 0 {
      RunKeeps(digest, run, n - 1);
      var step := StepOf(digest, run, n - 1);
      NextKeeps(digest, run[n - 1], step);
    }
  }

  /** At no time of any run are two brokers for the same user, root and namespace in force together. */
  lemma NeverTwoInForce(digest: Key -> int, run: seq<State>, n: nat, i: nat, j: nat)
    requires IsRun(digest, run) && n < |run| && i < |run[n].brokers| && j < |run[n].brokers| && i != j
    requires run[n].brokers[i].key == run[n].brokers[j].key
    ensures !(InForce(run[n].brokers[i]) && InForce(run[n].brokers[j]))
  {
    RunKeeps(digest, run, n);
    assert BrokerOk(run[n].brokers[i]) && BrokerOk(run[n].brokers[j]);
    NamesExclude(digest, run[n], i, j);
  }

  /** At no time of any run is a lock held without the name, but by a broker that was killed. */
  lemma LockInsideName(digest: Key -> int, run: seq<State>, n: nat, i: nat)
    requires IsRun(digest, run) && n < |run| && i < |run[n].brokers|
    ensures run[n].brokers[i].flock && !run[n].brokers[i].authority ==> run[n].brokers[i].place == Killed
  {
    RunKeeps(digest, run, n);
    assert BrokerOk(run[n].brokers[i]);
  }

  /** And a killed one may: every run in which a broker holds its lock can go on to free the name first. */
  lemma KillMayBreakNesting(digest: Key -> int, run: seq<State>, i: nat, a: Answer) returns (longer: seq<State>)
    requires IsRun(digest, run) && i < |run[|run| - 1].brokers| && HoldsLock(run[|run| - 1].brokers[i].place) && !a.ok
    ensures IsRun(digest, longer) && run <= longer
    ensures var last := longer[|longer| - 1]; i < |last.brokers| && last.brokers[i].flock && !last.brokers[i].authority
  {
    var n := |run| - 1;
    RunKeeps(digest, run, n);
    assert BrokerOk(run[n].brokers[i]);
    var kill, drop := Environment(i, Kill), Program(i, a);
    var killed := Next(digest, run[n], kill);
    longer := RunOn(digest, run, kill);
    longer := RunOn(digest, longer, drop);
    assert longer[n + 1] == killed;
  }

  lemma RunOn(digest: Key -> int, run: seq<State>, step: Step) returns (longer: seq<State>)
    requires IsRun(digest, run) && step.broker < |run[|run| - 1].brokers|
    ensures longer == run + [Next(digest, run[|run| - 1], step)] && IsRun(digest, longer)
  {
    longer := run + [Next(digest, run[|run| - 1], step)];
    forall n: nat | n + 1 < |longer|
      ensures StepsAt(digest, longer, n)
    {
      if n + 1 < |run| {
        assert StepsAt(digest, run, n);
      }
    }
  }

  // ------------------------------------------------------------------ names and locks are freed

  predicate SameHoldings(b: Broker, c: Broker) {
    b.key == c.key && b.authority == c.authority && b.flock == c.flock && (b.flock ==> b.held.inode == c.held.inode)
  }

  lemma PutKeepsBacked(digest: Key -> int, s: State, i: nat, b: Broker)
    requires Backed(digest, s) && i < |s.brokers| && SameHoldings(s.brokers[i], b)
    ensures Backed(digest, Put(s, i, s.kernel, b))
  {
  }

  lemma DropNameKeepsBacked(digest: Key -> int, s: State, i: nat, place: Place)
    requires Valid(digest, s) && Backed(digest, s) && i < |s.brokers|
    ensures Backed(digest, DropName(digest, s, i, place))
  {
    assert Owns(digest, s.kernel, i, s.brokers[i]);
  }

  lemma DropLockKeepsBacked(digest: Key -> int, s: State, i: nat, place: Place)
    requires Valid(digest, s) && Backed(digest, s) && i < |s.brokers|
    ensures Backed(digest, DropLock(s, i, place))
  {
    assert Owns(digest, s.kernel, i, s.brokers[i]);
  }

  lemma AcquireKeepsBacked(digest: Key -> int, s: State, i: nat, a: Answer)
    requires Valid(digest, s) && Backed(digest, s) && i < |s.brokers|
    requires s.brokers[i].place == Bind || s.brokers[i].place == Flock
    ensures Backed(digest, BrokerStep(digest, s, i, a))
  {
    assert BrokerOk(s.brokers[i]);
  }

  lemma BrokerStepKeepsBacked(digest: Key -> int, s: State, i: nat, a: Answer)
    requires Valid(digest, s) && Backed(digest, s) && i < |s.brokers|
    ensures Backed(digest, BrokerStep(digest, s, i, a))
  {
    var b := s.brokers[i];
    assert BrokerOk(b);
    match b.place
    case Bind => AcquireKeepsBacked(digest, s, i, a);
    case Flock => AcquireKeepsBacked(digest, s, i, a);
    case CloseFile => DropLockKeepsBacked(digest, s, i, CloseDir);
    case CloseAuthority => DropNameKeepsBacked(digest, s, i, Gone);
    case Abort => DropNameKeepsBacked(digest, s, i, Gone);
    case Killed =>
      if b.flock && (a.ok || !b.authority) {
        DropLockKeepsBacked(digest, s, i, Killed);
      } else if b.authority {
        DropNameKeepsBacked(digest, s, i, Killed);
      } else {
        PutKeepsBacked(digest, s, i, Go(b, Gone));
      }
    case Gone =>
    case _ =>
      LocalKeeps(b, a);
      PutKeepsBacked(digest, s, i, LocalStep(b, a));
  }

  lemma NextKeepsBacked(digest: Key -> int, s: State, step: Step)
    requires Valid(digest, s) && Backed(digest, s) && step.broker < |s.brokers|
    ensures Backed(digest, Next(digest, s, step))
  {
    match step
    case Program(i, a) => BrokerStepKeepsBacked(digest, s, i, a);
    case Environment(i, e) =>
      if !(e.Kill? && s.brokers[i].place.Gone?) {
        PutKeepsBacked(digest, s, i, Next(digest, s, step).brokers[i]);
      }
  }

  lemma {:induction false} RunKeepsBacked(digest: Key -> int, run: seq<State>, n: nat)
    requires IsRun(digest, run) && n < |run|
    ensures Backed(digest, run[n])
  {
    if n > 0 {
      RunKeeps(digest, run, n - 1);
      RunKeepsBacked(digest, run, n - 1);
      var step := StepOf(digest, run, n - 1);
      NextKeepsBacked(digest, run[n - 1], step);
    }
  }

  predicate NameHeld(digest: Key -> int, s: State, j: nat, name: int) {
    j < |s.brokers| && s.brokers[j].authority && Name(digest, s.brokers[j]) == name
  }

  /** A name is taken exactly while some broker that has not closed it holds it: exiting is enough to free it. */
  lemma NameTakenExactly(digest: Key -> int, run: seq<State>, n: nat, key: Key)
    requires IsRun(digest, run) && n < |run|
    ensures digest(key) in run[n].kernel.sockets <==> exists j: nat :: NameHeld(digest, run[n], j, digest(key))
  {
    RunKeeps(digest, run, n);
    RunKeepsBacked(digest, run, n);
    if digest(key) in run[n].kernel.sockets {
      assert NameHeld(digest, run[n], run[n].kernel.sockets[digest(key)], digest(key));
    }
    forall j: nat | NameHeld(digest, run[n], j, digest(key))
      ensures digest(key) in run[n].kernel.sockets
    {
      assert Owns(digest, run[n].kernel, j, run[n].brokers[j]);
    }
  }

  // ------------------------------------------------------------------ one interval inside the other

  /** A step that is not broker `i`'s own leaves it alone, but for its view and for killing it. */
  lemma NextKeepsOthers(digest: Key -> int, s: State, step: Step, i: nat)
    requires step.broker < |s.brokers| && i < |s.brokers| && !(step.Program? && step.broker == i)
    ensures |Next(digest, s, step).brokers| == |s.brokers|
    ensures var b, c := s.brokers[i], Next(digest, s, step).brokers[i];
            c == b.(view := c.view, place := c.place) && (c.place == b.place || (c.place == Killed && b.place != Gone))
  {
    match step
    case Program(j, a) =>
    case Environment(j, e) =>
  }

  /** How far a broker has come; it never goes back. */
  function Phase(place: Place): nat {
    match place
    case Start => 0
    case Bind => 1
    case MakeDir => 2
    case OpenDir => 2
    case CheckDir => 2
    case OpenFile => 2
    case CheckFile => 2
    case SetMode => 2
    case CompareDir => 2
    case Flock => 2
    case Verify(_, _) => 3
    case Announce => 3
    case Wait => 3
    case Alive => 3
    case CloseFile => 4
    case CloseDir => 5
    case CloseAuthority => 6
    case Abort => 6
    case Killed => 7
    case Gone => 8
  }

  /** The phase does not go back and a lock is only dropped on the way out. */
  predicate MovesOn(b: Broker, c: Broker) {
    Phase(b.place) <= Phase(c.place) && (b.flock && !c.flock && BrokerOk(b) ==> Phase(c.place) >= 5)
  }

  lemma LocalMoves(b: Broker, a: Answer)
    requires IsLocal(b.place)
    ensures Phase(b.place) <= Phase(LocalStep(b, a).place) && LocalStep(b, a).flock == b.flock
  {
    match b.place
    case Start =>
    case MakeDir =>
    case OpenDir =>
    case CheckDir =>
    case OpenFile =>
    case CheckFile =>
    case SetMode =>
    case CompareDir =>
    case Verify(part, ping) =>
    case Announce =>
    case Wait =>
    case Alive =>
    case CloseDir =>
  }

  lemma OwnStepMoves(digest: Key -> int, s: State, i: nat, a: Answer)
    requires i < |s.brokers|
    ensures |BrokerStep(digest, s, i, a).brokers| == |s.brokers|
    ensures MovesOn(s.brokers[i], BrokerStep(digest, s, i, a).brokers[i])
  {
    match s.brokers[i].place
    case Bind =>
    case Flock =>
    case CloseFile =>
    case CloseAuthority =>
    case Abort =>
    case Killed =>
    case Gone =>
    case _ => LocalMoves(s.brokers[i], a);
  }

  lemma StepMoves(digest: Key -> int, s: State, step: Step, i: nat)
    requires step.broker < |s.brokers| && i < |s.brokers|
    ensures |Next(digest, s, step).brokers| == |s.brokers|
    ensures MovesOn(s.brokers[i], Next(digest, s, step).brokers[i])
  {
    if step.Program? && step.broker == i {
      OwnStepMoves(digest, s, i, step.answer);
    } else {
      NextKeepsOthers(digest, s, step, i);
    }
  }

  lemma {:induction false} PhaseGrows(digest: Key -> int, run: seq<State>, i: nat, m: nat, n: nat)
    requires IsRun(digest, run) && m <= n < |run| && i < |run[0].brokers|
    ensures |run[m].brokers| == |run[n].brokers| == |run[0].brokers|
    ensures Phase(run[m].brokers[i].place) <= Phase(run[n].brokers[i].place)
    decreases n
  {
    RunKeeps(digest, run, m);
    if m < n {
      PhaseGrows(digest, run, i, m, n - 1);
      var step := StepOf(digest, run, n - 1);
      StepMoves(digest, run[n - 1], step, i);
    }
  }

  /** From locking to unlocking, on every exit path but a kill, the broker holds lock and name without a break. */
  lemma {:induction false} LockIntervalInsideName(digest: Key -> int, run: seq<State>, i: nat, m: nat, k: nat, n: nat)
    requires IsRun(digest, run) && m <= k <= n < |run| && i < |run[0].brokers|
    requires |run[m].brokers| == |run[n].brokers| == |run[0].brokers|
    requires run[m].brokers[i].flock && run[n].brokers[i].flock && run[n].brokers[i].place != Killed
    ensures |run[k].brokers| == |run[0].brokers|
    ensures run[k].brokers[i].flock && run[k].brokers[i].authority
    decreases k
  {
    RunKeeps(digest, run, k);
    RunKeeps(digest, run, n);
    assert BrokerOk(run[k].brokers[i]) && BrokerOk(run[n].brokers[i]);
    PhaseGrows(digest, run, i, k, n);
    if m < k {
      LockIntervalInsideName(digest, run, i, m, k - 1, n);
      RunKeeps(digest, run, k - 1);
      assert BrokerOk(run[k - 1].brokers[i]);
      var step := StepOf(digest, run, k - 1);
      StepMoves(digest, run[k - 1], step, i);
    }
  }

  // ------------------------------------------------------------------ what "locked" and "alive" follow

  /** A broker comes to these places only from the one before, by what is done there, and keeps what it holds. */
  predicate ArrivesBy(b: Broker, c: Broker, a: Answer) {
    && (c.place != b.place ==> ComesTo(b, c, a))
    && (b.place.Verify? && c.place == b.place ==> c.held == b.held)
    && (b.place.Verify? ==> c.key == b.key && c.held.dirId == b.held.dirId && c.held.fileId == b.held.fileId)
    && (c.pongs != b.pongs ==> b.place == Alive && c.pongs == b.pongs + 1)
    && (c.announced != b.announced ==> b.place == Announce && c.announced)
  }

  predicate ComesTo(b: Broker, c: Broker, a: Answer) {
    match c.place
    case Verify(part, ping) =>
      (match part
       case StatDir => if ping then b.place == Wait && a.request.Ping? else b.place == Flock
       case HoldDir => b.place == Verify(StatDir, ping) && c.held.seen == b.view.dirPath
       case StatFile => b.place == Verify(HoldDir, ping) && DirHeld(b)
       case HoldFile => b.place == Verify(StatFile, ping) && c.held.seen == b.view.filePath)
    case Alive => b.place == Verify(HoldFile, true) && FileHeld(b)
    case Announce => b.place == Verify(HoldFile, false) && FileHeld(b)
    case _ => true
  }

  lemma VerifyArrives(b: Broker, part: Part, ping: bool, a: Answer)
    requires b.place == Verify(part, ping)
    ensures ArrivesBy(b, VerifyStep(b, part, ping), a)
  {
    match part
    case StatDir =>
    case HoldDir =>
    case StatFile =>
    case HoldFile =>
  }

  lemma LocalArrives(b: Broker, a: Answer)
    requires IsLocal(b.place)
    ensures ArrivesBy(b, LocalStep(b, a), a)
  {
    match b.place
    case Start =>
    case MakeDir =>
    case OpenDir =>
    case CheckDir =>
    case OpenFile =>
    case CheckFile =>
    case SetMode =>
    case CompareDir =>
    case Verify(part, ping) => VerifyArrives(b, part, ping, a);
    case Announce =>
    case Wait =>
    case Alive =>
    case CloseDir =>
  }

  lemma OwnStepArrives(digest: Key -> int, s: State, i: nat, a: Answer)
    requires i < |s.brokers|
    ensures |BrokerStep(digest, s, i, a).brokers| == |s.brokers|
    ensures ArrivesBy(s.brokers[i], BrokerStep(digest, s, i, a).brokers[i], a)
  {
    match s.brokers[i].place
    case Bind =>
    case Flock =>
    case CloseFile =>
    case CloseAuthority =>
    case Abort =>
    case Killed =>
    case Gone =>
    case _ => LocalArrives(s.brokers[i], a);
  }

  lemma StepArrives(digest: Key -> int, run: seq<State>, n: nat, i: nat) returns (a: Answer)
    requires IsRun(digest, run) && n + 1 < |run| && i < |run[n].brokers|
    ensures |run[n + 1].brokers| == |run[n].brokers|
    ensures ArrivesBy(run[n].brokers[i], run[n + 1].brokers[i], a)
  {
    var step := StepOf(digest, run, n);
    if step.Program? && step.broker == i {
      a := step.answer;
      OwnStepArrives(digest, run[n], i, a);
    } else {
      a := Answer(false, 0, Invalid);
      NextKeepsOthers(digest, run[n], step, i);
    }
  }

  /** Broker `i` is at `place` from state `from` to state `to`. */
  ghost predicate Stays(run: seq<State>, i: nat, place: Place, from: nat, to: nat) {
    to < |run| && forall m :: from <= m <= to ==> i < |run[m].brokers| && run[m].brokers[i].place == place
  }

  /** Whoever is at a place other than the start arrived there. */
  lemma {:induction false} Arrival(digest: Key -> int, run: seq<State>, i: nat, place: Place, n: nat) returns (k: nat)
    requires IsRun(digest, run) && n < |run| && i < |run[n].brokers|
    requires run[n].brokers[i].place == place && place != Start
    ensures k < n && Stays(run, i, place, k + 1, n) && i < |run[k].brokers| && run[k].brokers[i].place != place
    decreases n
  {
    RunKeeps(digest, run, n);
    RunKeeps(digest, run, n - 1);
    k := n - 1;
    if run[n - 1].brokers[i].place == place {
      k := Arrival(digest, run, i, place, n - 1);
    }
  }

  /** While a broker stays at one call of a check it keeps what it holds. */
  lemma {:induction false} HeldStays(digest: Key -> int, run: seq<State>, i: nat, place: Place, first: nat, last: nat)
    requires IsRun(digest, run) && first <= last && Stays(run, i, place, first, last) && place.Verify?
    ensures run[last].brokers[i].held == run[first].brokers[i].held
    ensures run[last].brokers[i].key == run[first].brokers[i].key
    decreases last
  {
    if first < last {
      HeldStays(digest, run, i, place, first, last - 1);
      var a := StepArrives(digest, run, last - 1, i);
    }
  }

  /**
   The path was the recorded directory at `stat` and the descriptor at `hold`, and the broker did nothing else since.
   */
  ghost predicate DirChecked(run: seq<State>, i: nat, ping: bool, stat: nat, hold: nat, n: nat) {
    && stat < hold < n && Stays(run, i, Verify(HoldDir, ping), stat + 1, hold)
    && Stays(run, i, Verify(StatFile, ping), hold + 1, n)
    && i < |run[stat].brokers| && i < |run[hold].brokers| && i < |run[n].brokers|
    && run[stat].brokers[i].place == Verify(StatDir, ping)
    && var id, uid := run[n].brokers[i].held.dirId, run[n].brokers[i].key.uid;
       && PathOk(run[stat].brokers[i].view.dirPath, id, Directory, uid)
       && InfoOk(run[hold].brokers[i].view.dirHeld, id, Directory, uid)
  }

  ghost predicate FileChecked(run: seq<State>, i: nat, ping: bool, stat: nat, hold: nat) {
    && stat < hold && Stays(run, i, Verify(HoldFile, ping), stat + 1, hold)
    && i < |run[stat].brokers| && i < |run[hold].brokers|
    && run[stat].brokers[i].place == Verify(StatFile, ping)
    && var id, uid := run[hold].brokers[i].held.fileId, run[hold].brokers[i].key.uid;
       && PathOk(run[stat].brokers[i].view.filePath, id, Regular, uid)
       && InfoOk(run[hold].brokers[i].view.fileHeld, id, Regular, uid)
  }

  lemma CheckedDir(digest: Key -> int, run: seq<State>, i: nat, ping: bool, n: nat) returns (stat: nat, hold: nat)
    requires IsRun(digest, run) && n < |run| && i < |run[n].brokers|
    requires run[n].brokers[i].place == Verify(StatFile, ping)
    ensures DirChecked(run, i, ping, stat, hold, n)
  {
    hold := Arrival(digest, run, i, Verify(StatFile, ping), n);
    var a := StepArrives(digest, run, hold, i);
    HeldStays(digest, run, i, Verify(StatFile, ping), hold + 1, n);
    stat := Arrival(digest, run, i, Verify(HoldDir, ping), hold);
    a := StepArrives(digest, run, stat, i);
    HeldStays(digest, run, i, Verify(HoldDir, ping), stat + 1, hold);
  }

  lemma CheckedFile(digest: Key -> int, run: seq<State>, i: nat, ping: bool, n: nat) returns (stat: nat, hold: nat)
    requires IsRun(digest, run) && n < |run| && i < |run[n].brokers|
    requires run[n].brokers[i].place == if ping then Alive else Announce
    ensures stat < hold < n && FileChecked(run, i, ping, stat, hold)
    ensures Stays(run, i, if ping then Alive else Announce, hold + 1, n)
  {
    hold := Arrival(digest, run, i, if ping then Alive else Announce, n);
    var a := StepArrives(digest, run, hold, i);
    stat := Arrival(digest, run, i, Verify(HoldFile, ping), hold);
    a := StepArrives(digest, run, stat, i);
    HeldStays(digest, run, i, Verify(HoldFile, ping), stat + 1, hold);
  }

  /**
   When a broker answers "alive" it has, since it read the ping it answers and in this order, found the path and the
   descriptor of its directory and then those of its file unchanged, and has done nothing else in between.
   */
  lemma AliveIsFresh(digest: Key -> int, run: seq<State>, i: nat, n: nat)
    returns (ping: nat, statDir: nat, holdDir: nat, statFile: nat, holdFile: nat)
    requires IsRun(digest, run) && n + 1 < |run| && i < |run[n].brokers| && i < |run[n + 1].brokers|
    requires run[n + 1].brokers[i].pongs > run[n].brokers[i].pongs
    ensures ping < statDir < n && i < |run[ping].brokers| && run[ping].brokers[i].place == Wait
    ensures Stays(run, i, Verify(StatDir, true), ping + 1, statDir)
    ensures DirChecked(run, i, true, statDir, holdDir, statFile)
    ensures holdFile < n && FileChecked(run, i, true, statFile, holdFile) && Stays(run, i, Alive, holdFile + 1, n)
  {
    var a := StepArrives(digest, run, n, i);
    statFile, holdFile := CheckedFile(digest, run, i, true, n);
    statDir, holdDir := CheckedDir(digest, run, i, true, statFile);
    ping := Arrival(digest, run, i, Verify(StatDir, true), statDir);
    a := StepArrives(digest, run, ping, i);
  }

  /** When it prints "locked" it has the same checks behind it, with lock and name held since before them. */
  lemma AnnounceIsFresh(digest: Key -> int, run: seq<State>, i: nat, n: nat)
    returns (statDir: nat, holdDir: nat, statFile: nat, holdFile: nat)
    requires IsRun(digest, run) && n + 1 < |run| && i < |run[n].brokers| && i < |run[n + 1].brokers|
    requires run[n + 1].brokers[i].announced && !run[n].brokers[i].announced
    ensures DirChecked(run, i, false, statDir, holdDir, statFile)
    ensures holdFile < n && FileChecked(run, i, false, statFile, holdFile) && Stays(run, i, Announce, holdFile + 1, n)
    ensures run[statDir].brokers[i].flock && run[statDir].brokers[i].authority
  {
    var a := StepArrives(digest, run, n, i);
    statFile, holdFile := CheckedFile(digest, run, i, false, n);
    statDir, holdDir := CheckedDir(digest, run, i, false, statFile);
    RunKeeps(digest, run, statDir);
    assert BrokerOk(run[statDir].brokers[i]);
  }

  // ------------------------------------------------------------------ an undisturbed broker

  /** Broker `i` takes `n` steps with nothing else happening and every call answered by `a`. */
  function Alone(digest: Key -> int, s: State, i: nat, a: Answer, n: nat): (t: State)
    requires i < |s.brokers|
    ensures |t.brokers| == |s.brokers|
    decreases n
  {
    if n == 0 then s else Alone(digest, BrokerStep(digest, s, i, a), i, a, n - 1)
  }

  /** A private directory and an own regular file, seen alike by path and by descriptor. */
  predicate InOrder(b: Broker) {
    var d, f := b.view.dirHeld, b.view.fileHeld;
    && b.view.dirPath == Some(d) && d.kind == Directory && d.owner == b.key.uid && d.identity.mode == DIR_MODE
    && b.view.filePath == Some(f) && f.kind == Regular && f.owner == b.key.uid
    && f.identity.mode == FILE_MODE && f.identity.links == 1
  }

  lemma AloneStep(digest: Key -> int, s: State, i: nat, a: Answer, n: nat) returns (t: State)
    requires i < |s.brokers| && n > 0
    ensures t == BrokerStep(digest, s, i, a) && Alone(digest, s, i, a, n) == Alone(digest, t, i, a, n - 1)
  {
    t := BrokerStep(digest, s, i, a);
  }

  /** From the start to the opened file. */
  lemma AloneOpens(digest: Key -> int, s: State, i: nat, a: Answer, n: nat) returns (t: State)
    requires i < |s.brokers| && s.brokers[i].place == Start && a.ok && InOrder(s.brokers[i]) && n >= 6
    requires Name(digest, s.brokers[i]) !in s.kernel.sockets
    ensures |t.brokers| == |s.brokers| && t.kernel.locks == s.kernel.locks
    ensures var b := s.brokers[i];
            t.brokers[i] == b.(place := CheckFile, authority := true,
                               held := b.held.(inode := a.inode, dirId := b.view.dirHeld.identity))
    ensures Alone(digest, s, i, a, n) == Alone(digest, t, i, a, n - 6)
  {
    var b := s.brokers[i];
    t := AloneStep(digest, s, i, a, n);
    assert t.brokers[i] == b.(place := Bind) && t.kernel == s.kernel;
    t := AloneStep(digest, t, i, a, n - 1);
    assert t.brokers[i] == b.(place := MakeDir, authority := true) && t.kernel.locks == s.kernel.locks;
    t := AloneStep(digest, t, i, a, n - 2);
    t := AloneStep(digest, t, i, a, n - 3);
    assert t.brokers[i] == b.(place := CheckDir, authority := true) && t.kernel.locks == s.kernel.locks;
    t := AloneStep(digest, t, i, a, n - 4);
    t := AloneStep(digest, t, i, a, n - 5);
  }

  /** From the opened file to the lock. */
  lemma AloneLocks(digest: Key -> int, s: State, i: nat, a: Answer, n: nat) returns (t: State)
    requires i < |s.brokers| && s.brokers[i].place == CheckFile && a.ok && InOrder(s.brokers[i]) && n >= 4
    requires s.brokers[i].held.dirId == s.brokers[i].view.dirHeld.identity && s.brokers[i].held.inode !in s.kernel.locks
    ensures |t.brokers| == |s.brokers|
    ensures var b := s.brokers[i];
            t.brokers[i] == b.(place := Verify(StatDir, false), flock := true,
                               held := b.held.(fileId := b.view.fileHeld.identity))
    ensures Alone(digest, s, i, a, n) == Alone(digest, t, i, a, n - 4)
  {
    var b := s.brokers[i];
    var held := b.held.(fileId := b.view.fileHeld.identity);
    t := AloneStep(digest, s, i, a, n);
    t := AloneStep(digest, t, i, a, n - 1);
    assert t.brokers[i] == b.(place := CompareDir, held := held) && t.kernel == s.kernel;
    t := AloneStep(digest, t, i, a, n - 2);
    assert t.brokers[i] == b.(place := Flock, held := held) && t.kernel == s.kernel;
    t := AloneStep(digest, t, i, a, n - 3);
  }

  /** From the lock past the directory. */
  lemma AloneChecksDir(digest: Key -> int, s: State, i: nat, a: Answer, n: nat) returns (t: State)
    requires i < |s.brokers| && s.brokers[i].place == Verify(StatDir, false) && InOrder(s.brokers[i]) && n >= 2
    requires s.brokers[i].held.dirId == s.brokers[i].view.dirHeld.identity
    ensures |t.brokers| == |s.brokers|
    ensures var b := s.brokers[i];
            t.brokers[i] == b.(place := Verify(StatFile, false), held := b.held.(seen := b.view.dirPath))
    ensures Alone(digest, s, i, a, n) == Alone(digest, t, i, a, n - 2)
  {
    var b := s.brokers[i];
    t := AloneStep(digest, s, i, a, n);
    assert t.brokers[i] == b.(place := Verify(HoldDir, false), held := b.held.(seen := b.view.dirPath));
    t := AloneStep(digest, t, i, a, n - 1);
  }

  /** And past the file to the announcement. */
  lemma AloneAnnounces(digest: Key -> int, s: State, i: nat, a: Answer, n: nat) returns (t: State)
    requires i < |s.brokers| && s.brokers[i].place == Verify(StatFile, false) && a.ok
    requires InOrder(s.brokers[i]) && n >= 3
    requires s.brokers[i].held.fileId == s.brokers[i].view.fileHeld.identity
    ensures |t.brokers| == |s.brokers| && InForce(t.brokers[i])
    ensures Alone(digest, s, i, a, n) == Alone(digest, t, i, a, n - 3)
  {
    var b := s.brokers[i];
    t := AloneStep(digest, s, i, a, n);
    assert t.brokers[i] == b.(place := Verify(HoldFile, false), held := b.held.(seen := b.view.filePath));
    t := AloneStep(digest, t, i, a, n - 1);
    assert t.brokers[i].place == Announce;
    t := AloneStep(digest, t, i, a, n - 2);
  }

  /** With name and lock free and the files in order, an undisturbed broker has its lock in force after 15 steps. */
  lemma FreeLockIsTaken(digest: Key -> int, s: State, i: nat, a: Answer, n: nat) returns (t: State)
    requires i < |s.brokers| && s.brokers[i].place == Start && a.ok && InOrder(s.brokers[i]) && n >= 15
    requires Name(digest, s.brokers[i]) !in s.kernel.sockets && a.inode !in s.kernel.locks
    ensures |t.brokers| == |s.brokers| && InForce(t.brokers[i])
    ensures Alone(digest, s, i, a, n) == Alone(digest, t, i, a, n - 15)
  {
    t := AloneOpens(digest, s, i, a, n);
    t := AloneLocks(digest, t, i, a, n - 6);
    t := AloneChecksDir(digest, t, i, a, n - 10);
    t := AloneAnnounces(digest, t, i, a, n - 12);
  }

  /** With the name taken it is refused, and ends without a lock or an announcement. */
  lemma {:induction false} TakenNameIsRefused(digest: Key -> int, s: State, i: nat, a: Answer)
    requires i < |s.brokers| && s.brokers[i].place == Start && a.ok
    requires Name(digest, s.brokers[i]) in s.kernel.sockets
    ensures var t := Alone(digest, s, i, a, 2); t.brokers[i] == Go(s.brokers[i], Gone) && t.kernel == s.kernel
  {
    var t := AloneStep(digest, s, i, a, 2);
    assert t.brokers[i] == Go(s.brokers[i], Bind) && t.kernel == s.kernel;
    t := AloneStep(digest, t, i, a, 1);
  }
}
