/** Repairing an existing port list, from scripts/select-boron-gun-source-ports.py. */
module PortRepair {
  import opened Options
  import opened PortLoads
  import opened PortSelection
  import opened Sequences
  import opened Sorting

  // ------------------------------------------------------------------ ranks

  /** Python's order on tuples of numbers. */
  predicate LexLess(a: seq<nat>, b: seq<nat>) {
    if |a| == 0 || |b| == 0 then |a| < |b|
    else a[0] < b[0] || (a[0] == b[0] && LexLess(a[1..], b[1..]))
  }

  lemma {:induction false} LexTotal(a: seq<nat>, b: seq<nat>)
    ensures a == b || LexLess(a, b) || LexLess(b, a)
  {
    if |a| > 0 && |b| > 0 {
      LexTotal(a[1..], b[1..]);
      assert a == [a[0]] + a[1..] && b == [b[0]] + b[1..];
    }
  }

  lemma {:induction false} LexStrict(a: seq<nat>, b: seq<nat>)
    ensures !(LexLess(a, b) && LexLess(b, a)) && !LexLess(a, a)
  {
    if |a| > 0 {
      LexStrict(a[1..], if |b| > 0 then b[1..] else []);
    }
  }

  lemma {:induction false} LexTransitive(a: seq<nat>, b: seq<nat>, d: seq<nat>)
    requires LexLess(a, b) && LexLess(b, d)
    ensures LexLess(a, d)
  {
    if |a| > 0 && |b| > 0 && |d| > 0 && a[0] == b[0] == d[0] {
      LexTransitive(a[1..], b[1..], d[1..]);
    }
  }

  /** Of two tuples of one length the first difference decides. */
  lemma {:induction false} LexMeans(a: seq<nat>, b: seq<nat>)
    requires |a| == |b|
    ensures LexLess(a, b) <==> exists k :: FirstLess(a, b, k)
    decreases |a|
  {
    if |a| > 0 {
      LexMeans(a[1..], b[1..]);
      forall k: nat | k < |a| - 1
        ensures a[0] == b[0] ==> (FirstLess(a[1..], b[1..], k) <==> FirstLess(a, b, k + 1))
      {
        assert a[..k + 2] == [a[0]] + a[1..][..k + 1] && b[..k + 2] == [b[0]] + b[1..][..k + 1];
        assert a[..k + 1] == [a[0]] + a[1..][..k] && b[..k + 1] == [b[0]] + b[1..][..k];
      }
      if LexLess(a, b) {
        if a[0] < b[0] {
          assert FirstLess(a, b, 0);
        } else {
          var k :| FirstLess(a[1..], b[1..], k);
          assert FirstLess(a, b, k + 1);
        }
      }
      if k :| FirstLess(a, b, k) {
        if k > 0 {
          assert a[0] == a[..k][0] == b[..k][0] == b[0];
          assert FirstLess(a[1..], b[1..], k - 1);
        }
      }
    }
  }

  predicate FirstLess(a: seq<nat>, b: seq<nat>, k: int) {
    0 <= k < |a| && k < |b| && a[..k] == b[..k] && a[k] < b[k]
  }

  /** What candidates are compared by; the dictionary that follows in the script's tuple is never reached. */
  datatype Rank = Rank(target: seq<nat>, weighted: Score, replaced: nat, delta: nat, weight: nat, port: int)

  predicate TieBefore(a: Rank, b: Rank) {
    || a.replaced < b.replaced
    || (a.replaced == b.replaced && a.delta < b.delta)
    || (a.replaced == b.replaced && a.delta == b.delta && a.weight < b.weight)
    || (a.replaced == b.replaced && a.delta == b.delta && a.weight == b.weight && a.port < b.port)
  }

  predicate Before(a: Rank, b: Rank) {
    || LexLess(a.target, b.target)
    || (a.target == b.target && Better(a.weighted, b.weighted))
    || (a.target == b.target && a.weighted == b.weighted && TieBefore(a, b))
  }

  lemma BeforeTransitive(a: Rank, b: Rank, d: Rank)
    requires Before(a, b) && Before(b, d)
    ensures Before(a, d)
  {
    if LexLess(a.target, b.target) && LexLess(b.target, d.target) {
      LexTransitive(a.target, b.target, d.target);
    }
  }

  /** A rank as the script's tuple, written out flat. */
  function Tuple(r: Rank): seq<nat>
    requires r.port >= 0
  {
    r.target + [r.weighted.maxLoad, r.weighted.spread, r.weighted.squares, r.replaced, r.delta, r.weight, r.port]
  }

  lemma {:induction false} LexConcat(a: seq<nat>, b: seq<nat>, x: seq<nat>, y: seq<nat>)
    requires |a| == |b|
    ensures LexLess(a + x, b + y) <==> LexLess(a, b) || (a == b && LexLess(x, y))
    decreases |a|
  {
    if |a| == 0 {
      assert a + x == x && b + y == y;
    } else {
      LexConcat(a[1..], b[1..], x, y);
      assert (a + x)[1..] == a[1..] + x && (b + y)[1..] == b[1..] + y;
      assert a == [a[0]] + a[1..] && b == [b[0]] + b[1..];
    }
  }

  /** Ranks are compared as the script compares its tuples. */
  lemma BeforeIsTupleOrder(a: Rank, b: Rank)
    requires |a.target| == |b.target| && a.port >= 0 && b.port >= 0
    ensures Before(a, b) <==> LexLess(Tuple(a), Tuple(b))
  {
    var x, y := a.weighted, b.weighted;
    var s := [x.maxLoad, x.spread, x.squares] + [a.replaced, a.delta, a.weight, a.port];
    var t := [y.maxLoad, y.spread, y.squares] + [b.replaced, b.delta, b.weight, b.port];
    assert Tuple(a) == a.target + s && Tuple(b) == b.target + t;
    LexConcat(a.target, b.target, s, t);
    LexConcat([x.maxLoad, x.spread, x.squares], [y.maxLoad, y.spread, y.squares],
              [a.replaced, a.delta, a.weight, a.port], [b.replaced, b.delta, b.weight, b.port]);
    LexThree(x.maxLoad, x.spread, x.squares, y.maxLoad, y.spread, y.squares);
    LexFour(a.replaced, a.delta, a.weight, a.port, b.replaced, b.delta, b.weight, b.port);
  }

  lemma LexThree(a: nat, b: nat, d: nat, a': nat, b': nat, d': nat)
    ensures LexLess([a, b, d], [a', b', d']) <==>
            a < a' || (a == a' && b < b') || (a == a' && b == b' && d < d')
  {
    LexConcat([a], [a'], [b, d], [b', d']);
    LexConcat([b], [b'], [d], [d']);
    assert [a, b, d] == [a] + [b, d] && [a', b', d'] == [a'] + [b', d'];
    assert [b, d] == [b] + [d] && [b', d'] == [b'] + [d'];
    LexOne(a, a');
    LexOne(b, b');
    LexOne(d, d');
  }

  lemma LexOne(a: nat, b: nat)
    ensures LexLess([a], [b]) <==> a < b
  {
    assert [a][1..] == [] && [b][1..] == [];
  }

  lemma LexFour(a: nat, b: nat, d: nat, e: nat, a': nat, b': nat, d': nat, e': nat)
    ensures LexLess([a, b, d, e], [a', b', d', e']) <==>
            || a < a' || (a == a' && b < b') || (a == a' && b == b' && d < d')
            || (a == a' && b == b' && d == d' && e < e')
  {
    LexConcat([a, b, d], [a', b', d'], [e], [e']);
    assert [a, b, d, e] == [a, b, d] + [e] && [a', b', d', e'] == [a', b', d'] + [e'];
    LexThree(a, b, d, a', b', d');
    LexOne(e, e');
  }

  /** Ranks of different ports are never equal, so one comes before the other. */
  lemma BeforeTotal(a: Rank, b: Rank)
    requires a.port != b.port
    ensures Before(a, b) || Before(b, a)
  {
    LexTotal(a.target, b.target);
  }

  // ------------------------------------------------------------------ measures of a candidate

  function Distance(a: int, b: int): nat {
    if a < b then b - a else a - b
  }

  /** In how many places two lists of ports differ. */
  function Replaced(a: seq<int>, b: seq<int>): nat
    requires |a| == |b|
  {
    if |a| == 0 then 0 else Replaced(a[1..], b[1..]) + if a[0] == b[0] then 0 else 1
  }

  function Moved(a: seq<int>, b: seq<int>): nat
    requires |a| == |b|
  {
    if |a| == 0 then 0 else Moved(a[1..], b[1..]) + Distance(a[0], b[0])
  }

  lemma {:induction false} ReplacedByOne(a: seq<int>, b: seq<int>, i: nat, p: int)
    requires |a| == |b| && i < |a|
    ensures Replaced(a[i := p], b) <= Replaced(a, b) + 1
  {
    if i > 0 {
      assert a[i := p][1..] == a[1..][i - 1 := p];
      ReplacedByOne(a[1..], b[1..], i - 1, p);
    } else {
      assert a[i := p][1..] == a[1..];
    }
  }

  lemma {:induction false} ReplacedSelf(a: seq<int>)
    ensures Replaced(a, a) == 0
  {
    if |a| > 0 {
      ReplacedSelf(a[1..]);
    }
  }

  /** The number of places whose ports differ. */
  lemma {:induction false} ReplacedCounts(a: seq<int>, b: seq<int>) returns (at: seq<int>)
    requires |a| == |b|
    ensures |at| == Replaced(a, b) && NoRepeats(at)
    ensures forall i :: i in at <==> 0 <= i < |a| && a[i] != b[i]
    decreases |a|
  {
    if |a| == 0 {
      at := [];
    } else {
      var rest := ReplacedCounts(a[1..], b[1..]);
      var later := seq(|rest|, k requires 0 <= k < |rest| => rest[k] + 1);
      forall i
        ensures i in later <==> 1 <= i < |a| && a[i] != b[i]
      {
        if i in later {
          var k :| 0 <= k < |later| && later[k] == i;
          assert rest[k] in rest;
        }
        if 1 <= i < |a| && a[i] != b[i] {
          assert a[1..][i - 1] != b[1..][i - 1];
          var k :| 0 <= k < |rest| && rest[k] == i - 1;
          assert later[k] == i;
        }
      }
      at := if a[0] == b[0] then later else [0] + later;
    }
  }

  /** A swap changes the distance moved by what it changes in its own place. */
  lemma {:induction false} MovedByOne(a: seq<int>, b: seq<int>, i: nat, p: int)
    requires |a| == |b| && i < |a|
    ensures Moved(a[i := p], b) + (if a[i] < b[i] then b[i] - a[i] else a[i] - b[i]) ==
            Moved(a, b) + (if p < b[i] then b[i] - p else p - b[i])
    decreases i
  {
    if i > 0 {
      assert a[i := p][1..] == a[1..][i - 1 := p];
      MovedByOne(a[1..], b[1..], i - 1, p);
    } else {
      assert a[i := p][1..] == a[1..];
    }
  }

  lemma {:induction false} MovedSelf(a: seq<int>)
    ensures Moved(a, a) == 0
  {
    if |a| > 0 {
      MovedSelf(a[1..]);
    }
  }

  /** The loads of the workers under repair, in their order. */
  function TargetLoad(c: Calibration, ports: seq<int>, targets: seq<int>): seq<nat> {
    seq(|targets|, k requires 0 <= k < |targets| => Load(c, ports, targets[k]))
  }

  /** What a repair works on: the workers under repair in order, the queues, and the ports it started from. */
  datatype Job = Job(targets: seq<int>, queues: seq<int>, original: seq<int>)

  ghost predicate JobOk(c: Calibration, job: Job) {
    Assigns(c, job.queues, job.original) && NoRepeats(job.queues)
  }

  /** Putting `port` in place `at` of the selection. */
  datatype Swap = Swap(at: nat, port: int)

  /** The swap names a place and a port of that place's queue. */
  ghost predicate InQueue(c: Calibration, job: Job, swap: Swap) {
    swap.at < |job.queues| && swap.port in QueuePorts(c, job.queues[swap.at])
  }

  function Swapped(ports: seq<int>, swap: Swap): (r: seq<int>)
    ensures |r| == |ports|
  {
    if swap.at < |ports| then ports[swap.at := swap.port] else ports
  }

  ghost function RankOf(c: Calibration, job: Job, ports: seq<int>, swap: Swap): Rank
    requires |ports| == |job.original| == |job.queues| && swap.at < |ports|
  {
    var candidate := Swapped(ports, swap);
    Rank(TargetLoad(c, candidate, job.targets), ScoreOf(c, candidate), Replaced(candidate, job.original),
         Moved(candidate, job.original), QueueWeight(c, job.queues[swap.at]), swap.port)
  }

  /** What the swap improves: the loads under repair or, with none under repair, the score. */
  ghost predicate Lowers(c: Calibration, job: Job, ports: seq<int>, candidate: seq<int>) {
    if job.targets == [] then Better(ScoreOf(c, candidate), ScoreOf(c, ports))
    else LexLess(TargetLoad(c, candidate, job.targets), TargetLoad(c, ports, job.targets))
  }

  /** The swap may be made: it stays in its queue, moves a flow off a worker under repair if any, and improves. */
  ghost predicate Qualifies(c: Calibration, job: Job, ports: seq<int>, swap: Swap)
    requires |ports| == |job.queues|
  {
    && InQueue(c, job, swap) && swap.port !in ports
    && (job.targets != [] ==>
          WorkerOf(c, ports[swap.at]) in job.targets && WorkerOf(c, swap.port) != WorkerOf(c, ports[swap.at]))
    && Lowers(c, job, ports, Swapped(ports, swap))
  }

  // ------------------------------------------------------------------ what the filters leave out

  /** A swap takes the queue's weight off one worker and puts it on another. */
  lemma {:induction false} SwapLoads(c: Calibration, job: Job, ports: seq<int>, swap: Swap, w: int)
    requires Assigns(c, job.queues, ports) && InQueue(c, job, swap)
    ensures var candidate, weight := Swapped(ports, swap), QueueWeight(c, job.queues[swap.at]);
            Load(c, candidate, w) + (if WorkerOf(c, ports[swap.at]) == w then weight else 0) ==
            Load(c, ports, w) + (if WorkerOf(c, swap.port) == w then weight else 0)
  {
    var i, candidate := swap.at, Swapped(ports, swap);
    LoadWithout(c, ports, i, w);
    LoadWithout(c, candidate, i, w);
    assert candidate[..i] == ports[..i] && candidate[i + 1..] == ports[i + 1..];
  }

  /** Nothing that is nowhere less comes before. */
  lemma {:induction false} NowhereLess(a: seq<nat>, b: seq<nat>)
    requires |a| == |b| && forall k :: 0 <= k < |a| ==> b[k] <= a[k]
    ensures !LexLess(a, b)
    decreases |a|
  {
    if |a| > 0 {
      NowhereLess(a[1..], b[1..]);
    }
  }

  lemma OnlyTargetsHelp(c: Calibration, job: Job, ports: seq<int>, swap: Swap)
    requires Assigns(c, job.queues, ports) && InQueue(c, job, swap) && job.targets != []
    requires Lowers(c, job, ports, Swapped(ports, swap))
    ensures WorkerOf(c, ports[swap.at]) in job.targets && WorkerOf(c, swap.port) != WorkerOf(c, ports[swap.at])
  {
    var candidate := Swapped(ports, swap);
    var a, b := TargetLoad(c, candidate, job.targets), TargetLoad(c, ports, job.targets);
    if WorkerOf(c, ports[swap.at]) !in job.targets || WorkerOf(c, swap.port) == WorkerOf(c, ports[swap.at]) {
      forall k | 0 <= k < |a|
        ensures b[k] <= a[k]
      {
        SwapLoads(c, job, ports, swap, job.targets[k]);
      }
      NowhereLess(a, b);
      assert false;
    }
  }

  lemma OwnPortOnly(c: Calibration, job: Job, ports: seq<int>, swap: Swap)
    requires Assigns(c, job.queues, ports) && NoRepeats(job.queues) && InQueue(c, job, swap) && swap.port in ports
    ensures Swapped(ports, swap) == ports
  {
    var j :| 0 <= j < |ports| && ports[j] == swap.port;
    assert c.requester[ports[j]] == job.queues[j];
    assert job.queues[j] == job.queues[swap.at];
    assert j == swap.at;
  }

  /**
   The filters only save work: a swap qualifies exactly when its port is one of the place's queue and it improves what
   the repair is for. So a repair that stops early has no improving swap left.
   */
  lemma QualifiesExactly(c: Calibration, job: Job, ports: seq<int>, swap: Swap)
    requires Assigns(c, job.queues, ports) && NoRepeats(job.queues)
    ensures Qualifies(c, job, ports, swap) <==>
            InQueue(c, job, swap) && Lowers(c, job, ports, Swapped(ports, swap))
  {
    if InQueue(c, job, swap) && Lowers(c, job, ports, Swapped(ports, swap)) {
      if swap.port in ports {
        OwnPortOnly(c, job, ports, swap);
        LexStrict(TargetLoad(c, ports, job.targets), []);
        assert false;
      }
      if job.targets != [] {
        OnlyTargetsHelp(c, job, ports, swap);
      }
    }
  }

  // ------------------------------------------------------------------ judging one swap

  method TargetLoads(c: Calibration, ports: seq<int>, targets: seq<int>) returns (loads: seq<nat>)
    requires AllUsable(c, ports)
    ensures loads == TargetLoad(c, ports, targets)
  {
    var order, load := CountLoads(c, ports);
    loads := [];
    for k := 0 to |targets|
      invariant loads == TargetLoad(c, ports, targets[..k])
    {
      UnreachedIsZero(c, ports, targets[k]);
      var value := if targets[k] in load then load[targets[k]] else 0;
      assert value == Load(c, ports, targets[k]);
      assert targets[..k + 1] == targets[..k] + [targets[k]];
      loads := loads + [value];
      assert loads == TargetLoad(c, ports, targets[..k] + [targets[k]]);
    }
    assert targets[..|targets|] == targets;
  }

  /** Rejects a swap that does not qualify, and ranks one that does. */
  method Judge(c: Calibration, job: Job, ports: seq<int>, bestWeighted: Score, swap: Swap) returns (r: Option<Rank>)
    requires Assigns(c, job.queues, ports) && |job.original| == |ports| && bestWeighted == ScoreOf(c, ports)
    requires InQueue(c, job, swap)
    ensures r.Some? <==> Qualifies(c, job, ports, swap)
    ensures r.Some? ==> r.value == RankOf(c, job, ports, swap)
  {
    if swap.port in ports {
      return None;
    }
    if job.targets != [] && WorkerOf(c, ports[swap.at]) !in job.targets {
      return None;
    }
    if job.targets != [] && WorkerOf(c, swap.port) == WorkerOf(c, ports[swap.at]) {
      return None;
    }
    var candidate := ports[swap.at := swap.port];
    SwapAssigns(c, job, ports, swap);
    AssignedUsable(c, job.queues, candidate);
    AssignedUsable(c, job.queues, ports);
    var weighted := WeightedScore(c, candidate);
    var target := TargetLoads(c, candidate, job.targets);
    var currentTarget := TargetLoads(c, ports, job.targets);
    if job.targets != [] {
      if !LexLess(target, currentTarget) {
        return None;
      }
    } else if !Better(weighted, bestWeighted) {
      return None;
    }
    return Some(Rank(target, weighted, Replaced(candidate, job.original), Moved(candidate, job.original),
                     QueueWeight(c, job.queues[swap.at]), swap.port));
  }

  lemma SwapAssigns(c: Calibration, job: Job, ports: seq<int>, swap: Swap)
    requires Assigns(c, job.queues, ports) && InQueue(c, job, swap)
    ensures Assigns(c, job.queues, Swapped(ports, swap))
  {
  }

  // ------------------------------------------------------------------ the best swap of one round

  /** `may` and `rank` say which swaps qualify and how they rank; all a round needs to know. */
  ghost predicate Judges(c: Calibration, job: Job, ports: seq<int>, may: Swap -> bool, rank: Swap -> Rank)
    requires |ports| == |job.original| == |job.queues|
  {
    && (forall swap: Swap {:trigger Qualifies(c, job, ports, swap)} :: may(swap) <==> Qualifies(c, job, ports, swap))
    && (forall swap: Swap {:trigger RankOf(c, job, ports, swap)} :: swap.at < |ports| ==>
        rank(swap) == RankOf(c, job, ports, swap))
    && (forall swap: Swap :: may(swap) ==> InQueue(c, job, swap) && rank(swap).port == swap.port)
  }

  ghost function May(c: Calibration, job: Job, ports: seq<int>): Swap -> bool
    requires |ports| == |job.original| == |job.queues|
  {
    (swap: Swap) => |ports| == |job.queues| && Qualifies(c, job, ports, swap)
  }

  ghost function Ranks(c: Calibration, job: Job, ports: seq<int>): Swap -> Rank
    requires |ports| == |job.original| == |job.queues|
  {
    (swap: Swap) =>
      if |ports| == |job.original| == |job.queues| && swap.at < |ports| then RankOf(c, job, ports, swap)
      else Rank([], Score(0, 0, 0), 0, 0, 0, swap.port)
  }

  lemma TheyJudge(c: Calibration, job: Job, ports: seq<int>)
    requires |ports| == |job.original| == |job.queues|
    ensures Judges(c, job, ports, May(c, job, ports), Ranks(c, job, ports))
  {
  }

  /** The best of the swaps seen: it qualifies and ranks before every other that does. */
  ghost predicate BestOf(may: Swap -> bool, rank: Swap -> Rank, seen: set<Swap>, best: Option<Swap>) {
    match best
    case None => forall s :: s in seen ==> !may(s)
    case Some(b) => b in seen && may(b) && forall s :: s in seen && may(s) && s != b ==> Before(rank(b), rank(s))
  }

  lemma BestOfSkips(may: Swap -> bool, rank: Swap -> Rank, seen: set<Swap>, best: Option<Swap>, s: Swap)
    requires BestOf(may, rank, seen, best) && !may(s)
    ensures BestOf(may, rank, seen + {s}, best)
  {
  }

  lemma BestOfTakes(may: Swap -> bool, rank: Swap -> Rank, seen: set<Swap>, best: Option<Swap>, s: Swap)
    requires BestOf(may, rank, seen, best) && may(s) && s !in seen
    requires forall t :: t in seen && may(t) ==> rank(t).port != rank(s).port
    ensures if best.None? || Before(rank(s), rank(best.value)) then BestOf(may, rank, seen + {s}, Some(s))
            else BestOf(may, rank, seen + {s}, best)
  {
    if best.Some? {
      if Before(rank(s), rank(best.value)) {
        forall t | t in seen && may(t)
          ensures Before(rank(s), rank(t))
        {
          if t != best.value {
            BeforeTransitive(rank(s), rank(best.value), rank(t));
          }
        }
      } else {
        BeforeTotal(rank(s), rank(best.value));
      }
    }
  }

  /** A port belongs to one queue, so two swaps never share their port. */
  lemma SwapsDiffer(c: Calibration, job: Job, s: Swap, t: Swap)
    requires NoRepeats(job.queues) && InQueue(c, job, s) && InQueue(c, job, t) && s != t
    ensures s.port != t.port
  {
  }

  datatype Ranked = Ranked(swap: Swap, rank: Rank)

  function SwapOf(best: Option<Ranked>): Option<Swap> {
    if best.None? then None else Some(best.value.swap)
  }

  /** What a round knows after the swaps `seen`. */
  ghost predicate Round(c: Calibration, job: Job, may: Swap -> bool, rank: Swap -> Rank, seen: set<Swap>,
                        best: Option<Ranked>) {
    && (forall s :: s in seen ==> InQueue(c, job, s))
    && BestOf(may, rank, seen, SwapOf(best))
    && (best.Some? ==> best.value.rank == rank(best.value.swap))
  }

  lemma RoundTakes(c: Calibration, job: Job, ports: seq<int>, may: Swap -> bool, rank: Swap -> Rank, seen: set<Swap>,
                   best: Option<Ranked>, s: Swap, r: Option<Rank>)
    requires Round(c, job, may, rank, seen, best) && InQueue(c, job, s) && s !in seen && NoRepeats(job.queues)
    requires |ports| == |job.original| == |job.queues| && Judges(c, job, ports, may, rank)
    requires (r.Some? <==> may(s)) && (r.Some? ==> r.value == rank(s))
    ensures var better := r.Some? && (best.None? || Before(r.value, best.value.rank));
            Round(c, job, may, rank, seen + {s}, if better then Some(Ranked(s, r.value)) else best)
  {
    if may(s) {
      forall t | t in seen && may(t)
        ensures rank(t).port != rank(s).port
      {
        SwapsDiffer(c, job, s, t);
      }
      BestOfTakes(may, rank, seen, SwapOf(best), s);
    } else {
      BestOfSkips(may, rank, seen, SwapOf(best), s);
    }
  }

  /** The swaps seen before, and those of place `i` with one of these ports. */
  ghost predicate Seen(before: set<Swap>, i: nat, ports: seq<int>, seen: set<Swap>) {
    forall s :: s in seen <==> s in before || (s.at == i && s.port in ports)
  }

  lemma SeenGrows(before: set<Swap>, i: nat, options: seq<int>, j: nat, seen: set<Swap>)
    requires NoRepeats(options) && j < |options| && Seen(before, i, options[..j], seen)
    requires forall s :: s in before ==> s.at < i
    ensures Swap(i, options[j]) !in seen
    ensures Seen(before, i, options[..j + 1], seen + {Swap(i, options[j])})
  {
    assert options[..j + 1] == options[..j] + [options[j]];
    assert options[j] !in options[..j];
  }

  method SearchQueue(c: Calibration, options: seq<int>, job: Job, ports: seq<int>, bestWeighted: Score, i: nat,
                     best: Option<Ranked>, ghost seen: set<Swap>, ghost may: Swap -> bool, ghost rank: Swap -> Rank)
    returns (best': Option<Ranked>, ghost seen': set<Swap>)
    requires Assigns(c, job.queues, ports) && |job.original| == |ports| && NoRepeats(job.queues)
    requires bestWeighted == ScoreOf(c, ports)
    requires i < |job.queues| && Lists(options, QueuePorts(c, job.queues[i]), ByWorker(c))
    requires Judges(c, job, ports, may, rank) && Round(c, job, may, rank, seen, best)
    requires forall s :: s in seen ==> s.at < i
    ensures Round(c, job, may, rank, seen', best')
    ensures forall s :: s in seen' <==> s in seen || (s.at == i && s.port in options)
  {
    best', seen' := best, seen;
    ListsNoRepeats(options, QueuePorts(c, job.queues[i]), ByWorker(c));
    for j := 0 to |options|
      invariant Round(c, job, may, rank, seen', best')
      invariant Seen(seen, i, options[..j], seen')
    {
      var swap := Swap(i, options[j]);
      assert options[j] in options;
      SeenGrows(seen, i, options, j, seen');
      var r := JudgeBy(c, job, ports, bestWeighted, swap, may, rank);
      RoundTakes(c, job, ports, may, rank, seen', best', swap, r);
      if r.Some? && (best'.None? || Before(r.value, best'.value.rank)) {
        best' := Some(Ranked(swap, r.value));
      }
      seen' := seen' + {swap};
    }
    assert options[..|options|] == options;
  }

  method JudgeBy(c: Calibration, job: Job, ports: seq<int>, bestWeighted: Score, swap: Swap, ghost may: Swap -> bool,
                 ghost rank: Swap -> Rank)
    returns (r: Option<Rank>)
    requires Assigns(c, job.queues, ports) && |job.original| == |ports| && bestWeighted == ScoreOf(c, ports)
    requires InQueue(c, job, swap) && Judges(c, job, ports, may, rank)
    ensures (r.Some? <==> may(swap)) && (r.Some? ==> r.value == rank(swap))
  {
    r := Judge(c, job, ports, bestWeighted, swap);
  }

  /** The qualifying swap that ranks first, over all queues and all their ports. */
  method BestSwap(c: Calibration, choices: map<int, seq<int>>, job: Job, ports: seq<int>, bestWeighted: Score,
                  ghost may: Swap -> bool, ghost rank: Swap -> Rank)
    returns (best: Option<Ranked>)
    requires Grouped(c, choices) && Assigns(c, job.queues, ports) && |job.original| == |ports| && NoRepeats(job.queues)
    requires bestWeighted == ScoreOf(c, ports) && Judges(c, job, ports, may, rank)
    ensures best.None? ==> forall s :: !may(s)
    ensures best.Some? ==> may(best.value.swap) && best.value.rank == rank(best.value.swap)
    ensures best.Some? ==> forall s :: may(s) && s != best.value.swap ==> Before(best.value.rank, rank(s))
  {
    best := None;
    ghost var seen: set<Swap> := {};
    for i := 0 to |job.queues|
      invariant Round(c, job, may, rank, seen, best)
      invariant forall s :: s in seen <==> InQueue(c, job, s) && s.at < i
    {
      AssignedChoice(c, choices, job.queues, ports, i);
      best, seen := SearchQueue(c, choices[job.queues[i]], job, ports, bestWeighted, i, best, seen, may, rank);
    }
  }

  // ------------------------------------------------------------------ the repair

  /** `b` is `a` after the qualifying swap that ranks first. */
  ghost predicate BestStep(c: Calibration, job: Job, a: seq<int>, b: seq<int>)
    requires |a| == |job.original| == |job.queues|
  {
    exists s :: IsBestSwap(c, job, a, s) && b == Swapped(a, s)
  }

  ghost predicate IsBestSwap(c: Calibration, job: Job, a: seq<int>, s: Swap)
    requires |a| == |job.original| == |job.queues|
  {
    && Qualifies(c, job, a, s)
    && forall t :: Qualifies(c, job, a, t) && t != s ==> Before(RankOf(c, job, a, s), RankOf(c, job, a, t))
  }

  /** The selections of a repair, from the original on. */
  ghost predicate Trail(c: Calibration, job: Job, trail: seq<seq<int>>) {
    && |trail| > 0 && trail[0] == job.original
    && (forall k :: 0 <= k < |trail| ==> Assigns(c, job.queues, trail[k]))
    && |job.original| == |job.queues|
    && forall k :: 0 < k < |trail| ==> StepsTo(c, job, trail, k)
  }

  ghost predicate StepsTo(c: Calibration, job: Job, trail: seq<seq<int>>, k: nat)
    requires 0 < k < |trail|
  {
    |trail[k - 1]| == |job.original| == |job.queues| && BestStep(c, job, trail[k - 1], trail[k])
  }

  lemma BestSwapFound(c: Calibration, job: Job, ports: seq<int>, best: Ranked, may: Swap -> bool, rank: Swap -> Rank)
    requires |ports| == |job.original| == |job.queues| && Judges(c, job, ports, may, rank)
    requires may(best.swap) && best.rank == rank(best.swap)
    requires forall s :: may(s) && s != best.swap ==> Before(best.rank, rank(s))
    ensures IsBestSwap(c, job, ports, best.swap) && best.rank == RankOf(c, job, ports, best.swap)
  {
    assert Qualifies(c, job, ports, best.swap);
    forall t | Qualifies(c, job, ports, t) && t != best.swap
      ensures Before(RankOf(c, job, ports, best.swap), RankOf(c, job, ports, t))
    {
      assert may(t) && rank(t) == RankOf(c, job, ports, t);
    }
  }

  lemma NoSwapFound(c: Calibration, job: Job, ports: seq<int>, may: Swap -> bool, rank: Swap -> Rank)
    requires |ports| == |job.original| == |job.queues| && Judges(c, job, ports, may, rank)
    requires forall s :: !may(s)
    ensures forall s :: !Qualifies(c, job, ports, s)
  {
  }

  method RepairOnce(c: Calibration, choices: map<int, seq<int>>, job: Job, ports: seq<int>, bestWeighted: Score)
    returns (found: bool, ports': seq<int>, bestWeighted': Score)
    requires Grouped(c, choices) && JobOk(c, job) && Assigns(c, job.queues, ports) && bestWeighted == ScoreOf(c, ports)
    ensures Assigns(c, job.queues, ports') && bestWeighted' == ScoreOf(c, ports')
    ensures found ==> BestStep(c, job, ports, ports')
    ensures !found ==> ports' == ports && forall s :: !Qualifies(c, job, ports, s)
  {
    ghost var may, rank := May(c, job, ports), Ranks(c, job, ports);
    TheyJudge(c, job, ports);
    var best := BestSwap(c, choices, job, ports, bestWeighted, may, rank);
    if best.None? {
      NoSwapFound(c, job, ports, may, rank);
      return false, ports, bestWeighted;
    }
    BestSwapFound(c, job, ports, best.value, may, rank);
    SwapAssigns(c, job, ports, best.value.swap);
    return true, Swapped(ports, best.value.swap), best.value.rank.weighted;
  }

  method RepairSelection(c: Calibration, choices: map<int, seq<int>>, job: Job, maxReplacements: nat)
    returns (ports: seq<int>, ghost trail: seq<seq<int>>)
    requires Grouped(c, choices) && JobOk(c, job)
    ensures Trail(c, job, trail) && ports == trail[|trail| - 1] && |trail| <= maxReplacements + 1
    ensures |trail| <= maxReplacements ==> forall s :: !Qualifies(c, job, ports, s)
  {
    ports, trail := job.original, [job.original];
    AssignedUsable(c, job.queues, ports);
    var bestWeighted := WeightedScore(c, ports);
    var replacements := 0;
    while replacements < maxReplacements
      invariant 0 <= replacements <= maxReplacements && |trail| == replacements + 1
      invariant Trail(c, job, trail) && ports == trail[|trail| - 1]
      invariant bestWeighted == ScoreOf(c, ports)
    {
      var found, next, weighted := RepairOnce(c, choices, job, ports, bestWeighted);
      if !found {
        break;
      }
      TrailGrows(c, job, trail, next);
      trail := trail + [next];
      ports, bestWeighted := next, weighted;
      replacements := replacements + 1;
    }
  }

  lemma TrailGrows(c: Calibration, job: Job, trail: seq<seq<int>>, next: seq<int>)
    requires Trail(c, job, trail) && Assigns(c, job.queues, next) && BestStep(c, job, trail[|trail| - 1], next)
    ensures Trail(c, job, trail + [next])
  {
    var more := trail + [next];
    forall k | 0 < k < |more|
      ensures StepsTo(c, job, more, k)
    {
      if k < |trail| {
        assert StepsTo(c, job, trail, k);
        assert more[k - 1] == trail[k - 1] && more[k] == trail[k];
      } else {
        assert more[k - 1] == trail[|trail| - 1] && more[k] == next;
        assert Assigns(c, job.queues, trail[|trail| - 1]);
      }
    }
  }

  // ------------------------------------------------------------------ what a repair keeps

  /** Each step lowers the loads under repair, or the score when no worker is under repair. */
  lemma StepLowers(c: Calibration, job: Job, trail: seq<seq<int>>, k: nat)
    requires Trail(c, job, trail) && 0 < k < |trail|
    ensures Lowers(c, job, trail[k - 1], trail[k])
  {
    assert StepsTo(c, job, trail, k);
    var s :| IsBestSwap(c, job, trail[k - 1], s) && trail[k] == Swapped(trail[k - 1], s);
    assert Qualifies(c, job, trail[k - 1], s);
  }

  lemma LowersTransitive(c: Calibration, job: Job, a: seq<int>, b: seq<int>, d: seq<int>)
    requires Lowers(c, job, a, b) && Lowers(c, job, b, d)
    ensures Lowers(c, job, a, d)
  {
    if job.targets != [] {
      LexTransitive(TargetLoad(c, d, job.targets), TargetLoad(c, b, job.targets), TargetLoad(c, a, job.targets));
    } else {
      BetterTransitive(ScoreOf(c, d), ScoreOf(c, b), ScoreOf(c, a));
    }
  }

  lemma {:induction false} RepairLowers(c: Calibration, job: Job, trail: seq<seq<int>>, k: nat)
    requires Trail(c, job, trail) && 0 < k < |trail|
    ensures Lowers(c, job, job.original, trail[k])
  {
    StepLowers(c, job, trail, k);
    if k > 1 {
      RepairLowers(c, job, trail, k - 1);
      LowersTransitive(c, job, job.original, trail[k - 1], trail[k]);
    }
  }

  lemma SwapTo(c: Calibration, job: Job, trail: seq<seq<int>>, k: nat) returns (s: Swap)
    requires Trail(c, job, trail) && 0 < k < |trail|
    ensures |trail[k - 1]| == |job.original| && s.at < |job.original| && trail[k] == Swapped(trail[k - 1], s)
  {
    assert StepsTo(c, job, trail, k);
    s :| IsBestSwap(c, job, trail[k - 1], s) && trail[k] == Swapped(trail[k - 1], s);
    assert Qualifies(c, job, trail[k - 1], s);
  }

  /** After k steps at most k queues have another port than they started with. */
  lemma {:induction false} RepairReplacesFew(c: Calibration, job: Job, trail: seq<seq<int>>, k: nat)
    requires Trail(c, job, trail) && k < |trail|
    ensures |trail[k]| == |job.original| && Replaced(trail[k], job.original) <= k
  {
    assert Assigns(c, job.queues, trail[k]);
    if k == 0 {
      ReplacedSelf(job.original);
    } else {
      RepairReplacesFew(c, job, trail, k - 1);
      var s := SwapTo(c, job, trail, k);
      ReplacedByOne(trail[k - 1], job.original, s.at, s.port);
    }
  }

  // ------------------------------------------------------------------ checking the existing list

  predicate ExistingOk(c: Calibration, existing: seq<int>) {
    AllUsable(c, existing) && NoRepeats(QueuesOf(c, existing))
  }

  function QueuesOf(c: Calibration, ports: seq<int>): (r: seq<int>)
    ensures |r| == |ports|
  {
    seq(|ports|, i requires 0 <= i < |ports| => QueueOf(c, ports[i]))
  }

  method CheckExisting(c: Calibration, existing: seq<int>) returns (ok: bool)
    ensures ok <==> ExistingOk(c, existing)
  {
    var seen: set<int> := {};
    ghost var queues := QueuesOf(c, existing);
    for i := 0 to |existing|
      invariant AllUsable(c, existing[..i])
      invariant forall j :: 0 <= j < i ==> queues[j] in seen
      invariant forall q :: q in seen ==> exists j :: 0 <= j < i && queues[j] == q
      invariant forall j, k :: 0 <= j < k < i ==> queues[j] != queues[k]
    {
      var port := existing[i];
      if port !in c.server || port !in c.requester {
        assert !Usable(c, existing[i]);
        return false;
      }
      var queue := c.requester[port];
      assert queues[i] == queue;
      if queue in seen {
        ghost var j :| 0 <= j < i && queues[j] == queue;
        assert queues[j] == queues[i];
        return false;
      }
      assert AllUsable(c, existing[..i + 1]);
      seen := seen + {queue};
    }
    assert existing[..|existing|] == existing;
    return true;
  }

  /** A repair of `existing`, listed by queue, that ended in `ports` after `steps` steps. */
  ghost predicate Repairs(c: Calibration, existing: seq<int>, targets: set<int>, ports: seq<int>, steps: nat, job: Job,
                          trail: seq<seq<int>>) {
    && Lists(job.targets, targets, Ascending())
    && ByQueue(c, job.original) && multiset(job.original) == multiset(existing)
    && job.queues == QueuesOf(c, job.original)
    && Trail(c, job, trail) && |trail| == steps + 1 && ports == trail[steps]
  }

  /**
   Repair. It fails exactly when the list or the allowance is empty, a port is not calibrated, or two ports share a
   queue. Otherwise the result lists one port for each original queue and comes about by at most `maxReplacements`
   best swaps; it stops earlier only when no swap qualifies.
   */
  method RepairExistingPorts(c: Calibration, existing: seq<int>, maxReplacements: int, targets: set<int>)
    returns (r: Option<seq<int>>)
    ensures r.Some? <==> existing != [] && maxReplacements >= 1 && ExistingOk(c, existing)
    ensures r.Some? ==>
              exists steps: nat, job, trail ::
                && Repairs(c, existing, targets, r.value, steps, job, trail)
                && steps <= maxReplacements
                && (steps < maxReplacements ==> forall s :: !Qualifies(c, job, r.value, s))
  {
    if existing == [] || maxReplacements < 1 {
      return None;
    }
    var ok := CheckExisting(c, existing);
    if !ok {
      return None;
    }
    var choices := GroupPorts(c);
    var queues := QueuesOf(c, existing);
    var original := ListByQueue(c, queues, existing);
    var sorted := SortSet(targets, Ascending());
    var job := Job(sorted, QueuesOf(c, original), original);
    ByQueueIsJob(c, job);
    ghost var trail;
    var ports;
    ports, trail := RepairSelection(c, choices, job, maxReplacements);
    assert Repairs(c, existing, targets, ports, |trail| - 1, job, trail);
    return Some(ports);
  }

  lemma ByQueueIsJob(c: Calibration, job: Job)
    requires ByQueue(c, job.original) && job.queues == QueuesOf(c, job.original)
    ensures JobOk(c, job)
  {
    forall i | 0 <= i < |job.original|
      ensures Usable(c, job.original[i]) && c.requester[job.original[i]] == job.queues[i]
    {
    }
    forall i, j | 0 <= i < j < |job.queues|
      ensures job.queues[i] != job.queues[j]
    {
      assert c.requester[job.original[i]] < c.requester[job.original[j]];
    }
  }

  lemma SameQueues(c: Calibration, job: Job, ports: seq<int>)
    requires ByQueue(c, job.original) && job.queues == QueuesOf(c, job.original) && Assigns(c, job.queues, ports)
    ensures ByQueue(c, ports) && QueuesOf(c, ports) == job.queues
  {
    forall i | 0 <= i < |ports|
      ensures Usable(c, ports[i]) && QueueOf(c, ports[i]) == job.queues[i] == QueueOf(c, job.original[i])
    {
    }
    forall i, j | 0 <= i < j < |ports|
      ensures c.requester[ports[i]] < c.requester[ports[j]]
    {
      assert c.requester[job.original[i]] < c.requester[job.original[j]];
    }
  }

  /** The result of a repair: one port for each original queue in order, few of them new, and better if any is. */
  lemma {:induction false} RepairResult(c: Calibration, existing: seq<int>, targets: set<int>, ports: seq<int>,
                                        steps: nat, job: Job, trail: seq<seq<int>>)
    requires Repairs(c, existing, targets, ports, steps, job, trail)
    ensures ByQueue(c, ports) && QueuesOf(c, ports) == QueuesOf(c, job.original)
    ensures |ports| == |existing| == |job.original|
    ensures Replaced(ports, job.original) <= steps
    ensures steps > 0 ==> Lowers(c, job, job.original, ports)
  {
    SameSize(job.original, existing);
    RepairReplacesFew(c, job, trail, steps);
    if steps > 0 {
      RepairLowers(c, job, trail, steps);
    }
    SameQueues(c, job, ports);
  }

  // ------------------------------------------------------------------ the repair is determined

  lemma BeforeStrict(a: Rank, b: Rank)
    ensures !(Before(a, b) && Before(b, a))
  {
    LexStrict(a.target, b.target);
  }

  lemma BestSwapUnique(c: Calibration, job: Job, a: seq<int>, s: Swap, t: Swap)
    requires |a| == |job.original| == |job.queues| && IsBestSwap(c, job, a, s) && IsBestSwap(c, job, a, t)
    ensures s == t
  {
    if s != t {
      BeforeStrict(RankOf(c, job, a, s), RankOf(c, job, a, t));
      assert false;
    }
  }

  lemma BestSwapTo(c: Calibration, job: Job, trail: seq<seq<int>>, k: nat) returns (s: Swap)
    requires Trail(c, job, trail) && 0 < k < |trail|
    ensures |trail[k - 1]| == |job.original| == |job.queues|
    ensures IsBestSwap(c, job, trail[k - 1], s) && trail[k] == Swapped(trail[k - 1], s)
  {
    assert StepsTo(c, job, trail, k);
    s :| IsBestSwap(c, job, trail[k - 1], s) && trail[k] == Swapped(trail[k - 1], s);
  }

  /** Two trails of one job agree as far as both go. */
  lemma {:induction false} TrailsAgree(c: Calibration, job: Job, a: seq<seq<int>>, b: seq<seq<int>>, k: nat)
    requires Trail(c, job, a) && Trail(c, job, b) && k < |a| && k < |b|
    ensures a[k] == b[k]
  {
    if k > 0 {
      TrailsAgree(c, job, a, b, k - 1);
      var s := BestSwapTo(c, job, a, k);
      var t := BestSwapTo(c, job, b, k);
      BestSwapUnique(c, job, a[k - 1], s, t);
    }
  }

  /** No swap qualifies any more. */
  ghost predicate Stuck(c: Calibration, job: Job, ports: seq<int>) {
    |ports| == |job.queues| && forall s :: !Qualifies(c, job, ports, s)
  }

  /** A repair that used its allowance or stopped where nothing qualifies. */
  ghost predicate Finished(c: Calibration, job: Job, ports: seq<int>, steps: nat, maxReplacements: nat) {
    steps <= maxReplacements && (steps < maxReplacements ==> Stuck(c, job, ports))
  }

  lemma NotStuck(c: Calibration, job: Job, trail: seq<seq<int>>, k: nat, ports: seq<int>)
    requires Trail(c, job, trail) && 0 < k < |trail| && ports == trail[k - 1]
    ensures !Stuck(c, job, ports)
  {
    var s := BestSwapTo(c, job, trail, k);
    assert Qualifies(c, job, trail[k - 1], s);
  }

  /** A trail that another one goes beyond did not end stuck. */
  lemma ShorterNotStuck(c: Calibration, job: Job, a: seq<seq<int>>, b: seq<seq<int>>)
    requires Trail(c, job, a) && Trail(c, job, b) && |a| < |b|
    ensures !Stuck(c, job, a[|a| - 1])
  {
    TrailsAgree(c, job, a, b, |a| - 1);
    NotStuck(c, job, b, |a|, a[|a| - 1]);
  }

  lemma SameLength(c: Calibration, job: Job, a: seq<seq<int>>, b: seq<seq<int>>, maxReplacements: nat)
    requires Trail(c, job, a) && Trail(c, job, b)
    requires Finished(c, job, a[|a| - 1], |a| - 1, maxReplacements)
    requires Finished(c, job, b[|b| - 1], |b| - 1, maxReplacements)
    ensures |a| == |b|
  {
    if |a| < |b| {
      ShorterNotStuck(c, job, a, b);
    } else if |b| < |a| {
      ShorterNotStuck(c, job, b, a);
    }
  }

  /**
   Repair is a function of its inputs, whatever order the existing ports are listed in: every two results for the
   same ports, workers and allowance are the same.
   */
  lemma RepairDetermined(c: Calibration, targets: set<int>, maxReplacements: nat,
                         existing: seq<int>, ports: seq<int>, steps: nat, job: Job, trail: seq<seq<int>>,
                         existing': seq<int>, ports': seq<int>, steps': nat, job': Job, trail': seq<seq<int>>)
    requires multiset(existing) == multiset(existing')
    requires Repairs(c, existing, targets, ports, steps, job, trail)
    requires Repairs(c, existing', targets, ports', steps', job', trail')
    requires Finished(c, job, ports, steps, maxReplacements) && Finished(c, job', ports', steps', maxReplacements)
    ensures ports == ports' && steps == steps'
  {
    ByQueueUnique(c, job.original, job'.original);
    assert Orders(Ascending(), targets);
    ListsUnique(job.targets, job'.targets, targets, Ascending());
    assert job == job';
    SameLength(c, job, trail, trail', maxReplacements);
    TrailsAgree(c, job, trail, trail', steps);
  }
}
