/** Weighted source-port selection of scripts/select-boron-gun-source-ports.py: greedy starts and local search. */
module PortSelection {
  import opened Options
  import opened PortLoads
  import opened Sequences
  import opened Sorting

  /** The weight order once, then once for each of the 256 seeds. */
  const STARTS := 257

  // ------------------------------------------------------------------ queues and their ports

  function QueuePorts(c: Calibration, queue: int): set<int> {
    set p | p in c.server && p in c.requester && c.requester[p] == queue
  }

  /** The requester queues that have candidates. */
  function Queues(c: Calibration): set<int> {
    set p | p in c.server && p in c.requester :: c.requester[p]
  }

  function Ascending(): (int, int) -> bool {
    (a, b) => a < b
  }

  function ByWorker(c: Calibration): (int, int) -> bool {
    (a, b) => WorkerOf(c, a) < WorkerOf(c, b) || (WorkerOf(c, a) == WorkerOf(c, b) && a < b)
  }

  function Hash(start: nat, queue: int): int {
    if start == 0 then 0
    else (queue * 1_103_515_245 + 12_345 + (start - 1) * 2_654_435_761) % 0x1_0000_0000
  }

  /** Heavier queues first, then by hash; the sort is stable, so ties keep the ascending order. */
  function StartOrder(c: Calibration, start: nat): (int, int) -> bool {
    (a, b) =>
      || QueueWeight(c, a) > QueueWeight(c, b)
      || (QueueWeight(c, a) == QueueWeight(c, b) && Hash(start, a) < Hash(start, b))
      || (QueueWeight(c, a) == QueueWeight(c, b) && Hash(start, a) == Hash(start, b) && a < b)
  }

  /** The 257 starts: the weight order, and one for each seed from 0 to 255 that breaks ties by the seed's hash. */
  lemma StartsAre(start: nat, queue: int)
    ensures start < STARTS <==> start == 0 || start - 1 <= 255
    ensures Hash(0, queue) == 0
    ensures start > 0 ==> exists k: int ::
              queue * 1103515245 + 12345 + (start - 1) * 2654435761 == k * 4294967296 + Hash(start, queue)
    ensures 0 <= Hash(start, queue) < 4294967296
  {
    if start > 0 {
      var n := queue * 1103515245 + 12345 + (start - 1) * 2654435761;
      assert n == (n / 4294967296) * 4294967296 + n % 4294967296;
    }
  }

  /** Every queue's candidates, by worker and then by port. */
  ghost predicate Grouped(c: Calibration, choices: map<int, seq<int>>) {
    && choices.Keys == Queues(c)
    && forall q :: q in choices ==> Lists(choices[q], QueuePorts(c, q), ByWorker(c))
  }

  method GroupPorts(c: Calibration) returns (choices: map<int, seq<int>>)
    ensures Grouped(c, choices)
  {
    choices := map[];
    var queues := SortSet(Queues(c), Ascending());
    for i := 0 to |queues|
      invariant choices.Keys == Elements(queues[..i])
      invariant forall q :: q in choices ==> Lists(choices[q], QueuePorts(c, q), ByWorker(c))
    {
      var ports := SortSet(QueuePorts(c, queues[i]), ByWorker(c));
      assert queues[..i + 1] == queues[..i] + [queues[i]];
      choices := choices[queues[i] := ports];
    }
    assert queues[..|queues|] == queues;
    assert Elements(queues) == Queues(c);
  }

  // ------------------------------------------------------------------ greedy starts

  /** The key order of the greedy choice, given the ports chosen so far. */
  predicate PickBefore(c: Calibration, chosen: seq<int>, queue: int, a: int, b: int) {
    var weight := QueueWeight(c, queue);
    var la, lb := Load(c, chosen, WorkerOf(c, a)), Load(c, chosen, WorkerOf(c, b));
    || la + weight < lb + weight
    || (la + weight == lb + weight && la < lb)
    || (la + weight == lb + weight && la == lb && WorkerOf(c, a) < WorkerOf(c, b))
    || (la + weight == lb + weight && la == lb && WorkerOf(c, a) == WorkerOf(c, b) && a < b)
  }

  ghost predicate GreedyPick(c: Calibration, chosen: seq<int>, queue: int, port: int) {
    port in QueuePorts(c, queue)
    && forall p :: p in QueuePorts(c, queue) && p != port ==> PickBefore(c, chosen, queue, port, p)
  }

  /** A greedy choice is a port on the least loaded worker; of several workers the least, and of its ports. */
  lemma {:induction false} GreedyIsLeastLoaded(c: Calibration, chosen: seq<int>, queue: int, port: int, p: int)
    requires GreedyPick(c, chosen, queue, port) && p in QueuePorts(c, queue)
    ensures var load, other := Load(c, chosen, WorkerOf(c, port)), Load(c, chosen, WorkerOf(c, p));
            && load <= other
            && (load == other ==> WorkerOf(c, port) <= WorkerOf(c, p))
            && (WorkerOf(c, port) == WorkerOf(c, p) ==> port <= p)
  {
    assert p == port || PickBefore(c, chosen, queue, port, p);
  }

  ghost predicate Greedy(c: Calibration, queues: seq<int>, ports: seq<int>) {
    |ports| == |queues| && forall i :: 0 <= i < |queues| ==> GreedyPick(c, ports[..i], queues[i], ports[i])
  }

  /** One port for each queue, in order. */
  predicate Assigns(c: Calibration, queues: seq<int>, ports: seq<int>) {
    |ports| == |queues| && forall i :: 0 <= i < |queues| ==> Usable(c, ports[i]) && c.requester[ports[i]] == queues[i]
  }

  /** A counter read with default zero holds the loads of the chosen ports. */
  ghost predicate Counter(c: Calibration, chosen: seq<int>, load: map<int, nat>) {
    forall w :: (if w in load then load[w] else 0) == Load(c, chosen, w)
  }

  method PickPort(c: Calibration, choices: seq<int>, queue: int, load: map<int, nat>, ghost chosen: seq<int>)
    returns (port: int)
    requires Lists(choices, QueuePorts(c, queue), ByWorker(c)) && |choices| > 0
    requires Counter(c, chosen, load)
    ensures GreedyPick(c, chosen, queue, port)
  {
    port := choices[0];
    for i := 1 to |choices|
      invariant port in choices[..i]
      invariant forall j :: 0 <= j < i && choices[j] != port ==> PickBefore(c, chosen, queue, port, choices[j])
    {
      var candidate, weight := choices[i], QueueWeight(c, queue);
      var a, b := WorkerOf(c, candidate), WorkerOf(c, port);
      var la, lb := if a in load then load[a] else 0, if b in load then load[b] else 0;
      assert la == Load(c, chosen, a) && lb == Load(c, chosen, b);
      assert choices[..i + 1] == choices[..i] + [candidate];
      if || la + weight < lb + weight
         || (la + weight == lb + weight && (la < lb || (la == lb && (a < b || (a == b && candidate < port))))) {
        port := candidate;
      }
    }
    assert choices[..|choices|] == choices;
    forall p | p in QueuePorts(c, queue) && p != port
      ensures PickBefore(c, chosen, queue, port, p)
    {
      assert p in choices;
      var j :| 0 <= j < |choices| && choices[j] == p;
    }
  }

  method GreedyStart(c: Calibration, choices: map<int, seq<int>>, queues: seq<int>) returns (ports: seq<int>)
    requires Grouped(c, choices) && forall i :: 0 <= i < |queues| ==> queues[i] in Queues(c)
    ensures Greedy(c, queues, ports)
  {
    ports := [];
    var load: map<int, nat> := map[];
    for i := 0 to |queues|
      invariant Greedy(c, queues[..i], ports)
      invariant Counter(c, ports, load)
    {
      var queue := queues[i];
      QueueHasPort(c, choices, queue);
      var port := PickPort(c, choices[queue], queue, load, ports);
      GreedyGrows(c, queues, i, ports, port);
      CounterGrows(c, ports, port, load);
      var worker := WorkerOf(c, port);
      load := load[worker := (if worker in load then load[worker] else 0) + QueueWeight(c, queue)];
      ports := ports + [port];
    }
    assert queues[..|queues|] == queues;
  }

  lemma QueueHasPort(c: Calibration, choices: map<int, seq<int>>, queue: int)
    requires Grouped(c, choices) && queue in Queues(c)
    ensures queue in choices && |choices[queue]| > 0
  {
    var p :| p in c.server && p in c.requester && c.requester[p] == queue;
    assert p in QueuePorts(c, queue);
    assert p in choices[queue];
  }

  lemma GreedyGrows(c: Calibration, queues: seq<int>, i: nat, ports: seq<int>, port: int)
    requires i < |queues| && Greedy(c, queues[..i], ports) && GreedyPick(c, ports, queues[i], port)
    ensures Greedy(c, queues[..i + 1], ports + [port])
  {
    var more, qs := ports + [port], queues[..i + 1];
    forall j | 0 <= j < |qs|
      ensures GreedyPick(c, more[..j], qs[j], more[j])
    {
      if j < i {
        assert more[..j] == ports[..j] && queues[..i][j] == qs[j];
      } else {
        assert more[..j] == ports;
      }
    }
  }

  lemma CounterGrows(c: Calibration, ports: seq<int>, port: int, load: map<int, nat>)
    requires Counter(c, ports, load)
    ensures var w := WorkerOf(c, port);
            Counter(c, ports + [port], load[w := (if w in load then load[w] else 0) + QueueWeight(c, QueueOf(c, port))])
  {
    assert (ports + [port])[..|ports|] == ports;
  }

  /** A greedy start is determined by its queues. */
  lemma {:induction false} GreedyUnique(c: Calibration, queues: seq<int>, a: seq<int>, b: seq<int>)
    requires Greedy(c, queues, a) && Greedy(c, queues, b)
    ensures a == b
    decreases |queues|
  {
    if |queues| > 0 {
      var n := |queues| - 1;
      GreedyShrinks(c, queues, a);
      GreedyShrinks(c, queues, b);
      GreedyUnique(c, queues[..n], a[..n], b[..n]);
      assert GreedyPick(c, a[..n], queues[n], a[n]) && GreedyPick(c, b[..n], queues[n], b[n]);
      assert a == a[..n] + [a[n]] && b == b[..n] + [b[n]];
    }
  }

  lemma GreedyShrinks(c: Calibration, queues: seq<int>, ports: seq<int>)
    requires Greedy(c, queues, ports) && |queues| > 0
    ensures Greedy(c, queues[..|queues| - 1], ports[..|ports| - 1])
  {
    var n := |queues| - 1;
    forall j | 0 <= j < n
      ensures GreedyPick(c, ports[..n][..j], queues[..n][j], ports[..n][j])
    {
      assert ports[..n][..j] == ports[..j];
      assert GreedyPick(c, ports[..j], queues[j], ports[j]);
    }
  }

  lemma GreedyAssigns(c: Calibration, queues: seq<int>, ports: seq<int>)
    requires Greedy(c, queues, ports)
    ensures Assigns(c, queues, ports)
  {
    forall i | 0 <= i < |queues|
      ensures Usable(c, ports[i]) && c.requester[ports[i]] == queues[i]
    {
      assert GreedyPick(c, ports[..i], queues[i], ports[i]);
    }
  }

  /** Start number `start`: the first `count` queues of its order, assigned greedily. */
  ghost predicate IsStart(c: Calibration, start: nat, count: nat, queues: seq<int>, ports: seq<int>) {
    exists order ::
      && Lists(order, Queues(c), StartOrder(c, start))
      && count <= |order| && queues == order[..count] && Greedy(c, queues, ports)
  }

  lemma StartUnique(c: Calibration, start: nat, count: nat, qa: seq<int>, a: seq<int>, qb: seq<int>, b: seq<int>)
    requires IsStart(c, start, count, qa, a) && IsStart(c, start, count, qb, b)
    ensures qa == qb && a == b
  {
    var s, less := Queues(c), StartOrder(c, start);
    var oa :| Lists(oa, s, less) && count <= |oa| && qa == oa[..count] && Greedy(c, qa, a);
    var ob :| Lists(ob, s, less) && count <= |ob| && qb == ob[..count] && Greedy(c, qb, b);
    ListsUnique(oa, ob, s, less);
    GreedyUnique(c, qa, a, b);
  }

  /** The queues of a start come by falling weight, so sorting them by weight again, stably, changes nothing. */
  lemma StartsByWeight(c: Calibration, start: nat, count: nat, queues: seq<int>, ports: seq<int>)
    requires IsStart(c, start, count, queues, ports)
    ensures forall i, j :: 0 <= i < j < |queues| ==> QueueWeight(c, queues[i]) >= QueueWeight(c, queues[j])
  {
    var less := StartOrder(c, start);
    var order :| Lists(order, Queues(c), less) && count <= |order| && queues == order[..count]
        && Greedy(c, queues, ports);
    forall i, j | 0 <= i < j < |queues|
      ensures QueueWeight(c, queues[i]) >= QueueWeight(c, queues[j])
    {
      assert less(order[i], order[j]);
    }
  }

  /** No greedy start numbered below `k` scores better than `bar`. */
  ghost predicate NoStartBetter(c: Calibration, count: nat, k: nat, score: seq<int> -> Score, bar: Score) {
    forall start: nat, queues, ports :: start < k && IsStart(c, start, count, queues, ports) ==>
        !Better(score(ports), bar)
  }

  lemma BetterTransitive(a: Score, b: Score, d: Score)
    requires Better(a, b) && Better(b, d)
    ensures Better(a, d)
  {
  }

  /** `bar` is better than every greedy start numbered below `k`. */
  ghost predicate BeatsEarlier(c: Calibration, count: nat, k: nat, score: seq<int> -> Score, bar: Score) {
    forall start: nat, queues, ports :: start < k && IsStart(c, start, count, queues, ports) ==>
        Better(bar, score(ports))
  }

  lemma BeatsAllEarlier(c: Calibration, count: nat, k: nat, score: seq<int> -> Score, bar: Score, lower: Score)
    requires NoStartBetter(c, count, k, score, bar) && Better(lower, bar)
    ensures BeatsEarlier(c, count, k, score, lower)
  {
    forall start: nat, qs, ps | start < k && IsStart(c, start, count, qs, ps)
      ensures Better(lower, score(ps))
    {
      assert !Better(score(ps), bar);
    }
  }

  /** The start that is kept: none is better, and those before it are worse. */
  ghost predicate FirstBest(c: Calibration, count: nat, start: nat, queues: seq<int>, ports: seq<int>,
                            score: seq<int> -> Score) {
    && start < STARTS && IsStart(c, start, count, queues, ports)
    && NoStartBetter(c, count, STARTS, score, score(ports)) && BeatsEarlier(c, count, start, score, score(ports))
  }

  lemma FirstBestUnique(c: Calibration, count: nat, k: nat, qa: seq<int>, a: seq<int>, l: nat, qb: seq<int>,
                        b: seq<int>, score: seq<int> -> Score)
    requires FirstBest(c, count, k, qa, a, score) && FirstBest(c, count, l, qb, b, score)
    ensures qa == qb && a == b
  {
    assert !Better(score(b), score(a)) && !Better(score(a), score(b));
    assert k == l;
    StartUnique(c, k, count, qa, a, qb, b);
  }

  lemma NoStartBetterGrows(c: Calibration, count: nat, k: nat, score: seq<int> -> Score, queues: seq<int>,
                           ports: seq<int>, bar: Score, lower: Score)
    requires NoStartBetter(c, count, k, score, bar) && IsStart(c, k, count, queues, ports)
    requires !Better(score(ports), lower) && !Better(bar, lower)
    ensures NoStartBetter(c, count, k + 1, score, lower)
  {
    forall start: nat, qs, ps | start < k + 1 && IsStart(c, start, count, qs, ps)
      ensures !Better(score(ps), lower)
    {
      if start == k {
        StartUnique(c, k, count, qs, ps, queues, ports);
      } else {
        assert !Better(score(ps), bar);
      }
    }
  }

  lemma NoStartBetterLower(c: Calibration, count: nat, k: nat, score: seq<int> -> Score, bar: Score, lower: Score)
    requires NoStartBetter(c, count, k, score, bar) && !Better(bar, lower)
    ensures NoStartBetter(c, count, k, score, lower)
  {
    forall start: nat, qs, ps | start < k && IsStart(c, start, count, qs, ps)
      ensures !Better(score(ps), lower)
    {
      assert !Better(score(ps), bar);
    }
  }

  method RunStart(c: Calibration, choices: map<int, seq<int>>, start: nat, count: nat)
    returns (queues: seq<int>, ports: seq<int>)
    requires Grouped(c, choices) && count <= |Queues(c)|
    ensures IsStart(c, start, count, queues, ports)
    ensures |queues| == count && NoRepeats(queues) && Assigns(c, queues, ports)
  {
    var order := SortSet(Queues(c), StartOrder(c, start));
    ListsSize(order, Queues(c), StartOrder(c, start));
    ListsNoRepeats(order, Queues(c), StartOrder(c, start));
    queues := order[..count];
    forall i | 0 <= i < |queues|
      ensures queues[i] in Queues(c)
    {
      assert order[i] in order;
    }
    ports := GreedyStart(c, choices, queues);
    GreedyAssigns(c, queues, ports);
  }

  /** The best of the greedy starts, the first one on ties. */
  method BestStart(c: Calibration, choices: map<int, seq<int>>, count: nat, ghost score: seq<int> -> Score)
    returns (queues: seq<int>, ports: seq<int>, best: Score, ghost first: nat)
    requires Grouped(c, choices) && count <= |Queues(c)| && Scores(c, score)
    ensures |queues| == count && NoRepeats(queues) && Assigns(c, queues, ports)
    ensures best == score(ports) && FirstBest(c, count, first, queues, ports, score)
  {
    first := 0;
    queues, ports := RunStart(c, choices, 0, count);
    AssignedUsable(c, queues, ports);
    best := ScorePorts(c, ports, score);
    NoStartBetterGrows(c, count, 0, score, queues, ports, best, best);
    for start := 1 to STARTS
      invariant |queues| == count && NoRepeats(queues) && Assigns(c, queues, ports)
      invariant best == score(ports) && NoStartBetter(c, count, start, score, best)
      invariant first < start && IsStart(c, first, count, queues, ports) && BeatsEarlier(c, count, first, score, best)
    {
      var qs, ps := RunStart(c, choices, start, count);
      AssignedUsable(c, qs, ps);
      var other := ScorePorts(c, ps, score);
      NoStartBetterGrows(c, count, start, score, qs, ps, best, if Better(other, best) then other else best);
      if Better(other, best) {
        BeatsAllEarlier(c, count, start, score, best, other);
        queues, ports, best, first := qs, ps, other, start;
      }
    }
  }

  lemma AssignedUsable(c: Calibration, queues: seq<int>, ports: seq<int>)
    requires Assigns(c, queues, ports)
    ensures AllUsable(c, ports)
  {
  }

  // ------------------------------------------------------------------ local search

  /** No other port of one queue, put in its place, scores better. */
  ghost predicate LocallyBest(c: Calibration, queues: seq<int>, ports: seq<int>, score: seq<int> -> Score)
    requires |ports| == |queues|
  {
    forall i :: 0 <= i < |queues| ==> QueueBest(c, queues[i], ports, i, score)
  }

  ghost predicate QueueBest(c: Calibration, queue: int, ports: seq<int>, i: nat, score: seq<int> -> Score)
    requires i < |ports|
  {
    forall p :: p in QueuePorts(c, queue) ==> !Better(score(ports[i := p]), score(ports))
  }

  /** On a lower worker, or lower on the same one. */
  predicate EarlierPort(c: Calibration, q: int, p: int) {
    WorkerOf(c, q) < WorkerOf(c, p) || (WorkerOf(c, q) == WorkerOf(c, p) && q < p)
  }

  /** The first port of the queue, by worker and port, that scores better in its place. */
  ghost predicate FirstInQueue(c: Calibration, queue: int, ports: seq<int>, i: nat, p: int, score: seq<int> -> Score)
    requires i < |ports|
  {
    && p in QueuePorts(c, queue) && Better(score(ports[i := p]), score(ports))
    && forall q :: q in QueuePorts(c, queue) && EarlierPort(c, q, p) ==> !Better(score(ports[i := q]), score(ports))
  }

  /** One turn of the search: the first queue that has a better port gets the first one. */
  ghost predicate Turn(c: Calibration, queues: seq<int>, ports: seq<int>, ports': seq<int>, i: nat, p: int,
                       score: seq<int> -> Score)
    requires |ports| == |queues|
  {
    && i < |queues| && FirstInQueue(c, queues[i], ports, i, p, score) && ports' == ports[i := p]
    && forall k :: 0 <= k < i ==> QueueBest(c, queues[k], ports, k, score)
  }

  ghost predicate Turns(c: Calibration, queues: seq<int>, ports: seq<int>, ports': seq<int>, score: seq<int> -> Score)
    requires |ports| == |queues|
  {
    exists i: nat, p :: Turn(c, queues, ports, ports', i, p, score)
  }

  lemma TurnUnique(c: Calibration, queues: seq<int>, ports: seq<int>, a: seq<int>, b: seq<int>,
                   score: seq<int> -> Score)
    requires |ports| == |queues| && Turns(c, queues, ports, a, score) && Turns(c, queues, ports, b, score)
    ensures a == b
  {
    var i: nat, p :| Turn(c, queues, ports, a, i, p, score);
    var j: nat, q :| Turn(c, queues, ports, b, j, q, score);
    assert !QueueBest(c, queues[i], ports, i, score) && !QueueBest(c, queues[j], ports, j, score);
    assert i == j;
    assert !EarlierPort(c, p, q) && !EarlierPort(c, q, p);
    assert p == q;
  }

  /** The substitutions for one queue, stopping at the first that scores better. */
  method ImproveQueue(c: Calibration, options: seq<int>, queues: seq<int>, ports: seq<int>, best: Score, i: nat,
                      ghost score: seq<int> -> Score)
    returns (improved: bool, ports': seq<int>, best': Score)
    requires Assigns(c, queues, ports) && best == score(ports) && Scores(c, score)
    requires i < |queues| && Lists(options, QueuePorts(c, queues[i]), ByWorker(c))
    ensures Assigns(c, queues, ports') && best' == score(ports')
    ensures improved ==> Better(best', best)
    ensures improved ==> exists p :: FirstInQueue(c, queues[i], ports, i, p, score) && ports' == ports[i := p]
    ensures !improved ==> ports' == ports && QueueBest(c, queues[i], ports, i, score)
  {
    for j := 0 to |options|
      invariant forall k :: 0 <= k < j ==> !Better(score(ports[i := options[k]]), best)
    {
      if options[j] == ports[i] {
        assert ports[i := options[j]] == ports;
        continue;
      }
      var candidate := ports[i := options[j]];
      SubstituteAssigns(c, options, queues, ports, i, j);
      AssignedUsable(c, queues, candidate);
      var value := ScorePorts(c, candidate, score);
      if Better(value, best) {
        ListedFirst(c, options, queues[i], ports, i, j, score);
        return true, candidate, value;
      }
    }
    forall p | p in QueuePorts(c, queues[i])
      ensures !Better(score(ports[i := p]), best)
    {
      assert p in options;
      var k :| 0 <= k < |options| && options[k] == p;
    }
    return false, ports, best;
  }

  /** The first of the listed options is the first by worker and port. */
  lemma ListedFirst(c: Calibration, options: seq<int>, queue: int, ports: seq<int>, i: nat, j: nat,
                    score: seq<int> -> Score)
    requires i < |ports| && Lists(options, QueuePorts(c, queue), ByWorker(c)) && j < |options|
    requires Better(score(ports[i := options[j]]), score(ports))
    requires forall k :: 0 <= k < j ==> !Better(score(ports[i := options[k]]), score(ports))
    ensures FirstInQueue(c, queue, ports, i, options[j], score)
  {
    assert options[j] in options;
    forall q | q in QueuePorts(c, queue) && EarlierPort(c, q, options[j])
      ensures !Better(score(ports[i := q]), score(ports))
    {
      assert q in options;
      var k :| 0 <= k < |options| && options[k] == q;
      assert !ByWorker(c)(options[j], options[k]);
    }
  }

  lemma SubstituteAssigns(c: Calibration, options: seq<int>, queues: seq<int>, ports: seq<int>, i: nat, j: nat)
    requires Assigns(c, queues, ports)
    requires i < |queues| && Lists(options, QueuePorts(c, queues[i]), ByWorker(c)) && j < |options|
    ensures Assigns(c, queues, ports[i := options[j]])
  {
    assert options[j] in options;
    assert options[j] in QueuePorts(c, queues[i]);
  }

  /**
   One pass over the selection, stopping at the first substitution that scores better. The script visits queues by
   falling weight with ties in selection order; every start is already in that order.
   */
  method Improve(c: Calibration, choices: map<int, seq<int>>, queues: seq<int>, ports: seq<int>, best: Score,
                 ghost score: seq<int> -> Score)
    returns (improved: bool, ports': seq<int>, best': Score)
    requires Grouped(c, choices) && Assigns(c, queues, ports) && best == score(ports) && Scores(c, score)
    ensures Assigns(c, queues, ports') && best' == score(ports')
    ensures improved ==> Better(best', best) && Turns(c, queues, ports, ports', score)
    ensures !improved ==> ports' == ports && LocallyBest(c, queues, ports, score)
  {
    for i := 0 to |queues|
      invariant forall k :: 0 <= k < i ==> QueueBest(c, queues[k], ports, k, score)
    {
      AssignedChoice(c, choices, queues, ports, i);
      improved, ports', best' := ImproveQueue(c, choices[queues[i]], queues, ports, best, i, score);
      if improved {
        ghost var p :| FirstInQueue(c, queues[i], ports, i, p, score) && ports' == ports[i := p];
        assert Turn(c, queues, ports, ports', i, p, score);
        return;
      }
    }
    return false, ports, best;
  }

  /** Every assignment but the first follows by one turn, and the last is locally best. */
  ghost predicate SearchTrail(c: Calibration, queues: seq<int>, trail: seq<seq<int>>, score: seq<int> -> Score) {
    && |trail| > 0 && (forall k :: 0 <= k < |trail| ==> |trail[k]| == |queues|)
    && (forall k: nat :: k + 1 < |trail| ==> TrailTurns(c, queues, trail, k, score))
  }

  ghost predicate TrailTurns(c: Calibration, queues: seq<int>, trail: seq<seq<int>>, k: nat, score: seq<int> -> Score)
    requires k + 1 < |trail| && |trail[k]| == |queues|
  {
    Turns(c, queues, trail[k], trail[k + 1], score)
  }

  ghost predicate Searched(c: Calibration, queues: seq<int>, trail: seq<seq<int>>, score: seq<int> -> Score) {
    SearchTrail(c, queues, trail, score) && LocallyBest(c, queues, trail[|trail| - 1], score)
  }

  lemma TrailGrows(c: Calibration, queues: seq<int>, trail: seq<seq<int>>, ports: seq<int>, score: seq<int> -> Score)
    requires SearchTrail(c, queues, trail, score) && |ports| == |queues|
    requires Turns(c, queues, trail[|trail| - 1], ports, score)
    ensures SearchTrail(c, queues, trail + [ports], score)
  {
    var more := trail + [ports];
    forall k: nat | k + 1 < |more|
      ensures |more[k]| == |queues| && TrailTurns(c, queues, more, k, score)
    {
      if k + 1 < |trail| {
        assert TrailTurns(c, queues, trail, k, score);
      }
    }
  }

  /** Two searches from one start go the same way. */
  lemma {:induction false} TrailsFollow(c: Calibration, queues: seq<int>, a: seq<seq<int>>, b: seq<seq<int>>, k: nat,
                                        score: seq<int> -> Score)
    requires SearchTrail(c, queues, a, score) && Searched(c, queues, b, score) && a[0] == b[0] && k < |a|
    ensures k < |b| && a[k] == b[k]
  {
    if k > 0 {
      TrailsFollow(c, queues, a, b, k - 1, score);
      assert TrailTurns(c, queues, a, k - 1, score);
      TurnNotBest(c, queues, a[k - 1], a[k], score);
      assert k < |b|;
      assert TrailTurns(c, queues, b, k - 1, score);
      TurnUnique(c, queues, a[k - 1], a[k], b[k], score);
    }
  }

  lemma TurnNotBest(c: Calibration, queues: seq<int>, ports: seq<int>, next: seq<int>, score: seq<int> -> Score)
    requires |ports| == |queues| && Turns(c, queues, ports, next, score)
    ensures !LocallyBest(c, queues, ports, score)
  {
    var i: nat, p :| Turn(c, queues, ports, next, i, p, score);
    assert !QueueBest(c, queues[i], ports, i, score);
  }

  lemma SearchUnique(c: Calibration, queues: seq<int>, a: seq<seq<int>>, b: seq<seq<int>>, score: seq<int> -> Score)
    requires Searched(c, queues, a, score) && Searched(c, queues, b, score) && a[0] == b[0]
    ensures a[|a| - 1] == b[|b| - 1]
  {
    TrailsFollow(c, queues, a, b, |a| - 1, score);
    TrailsFollow(c, queues, b, a, |b| - 1, score);
  }

  lemma AssignedChoice(c: Calibration, choices: map<int, seq<int>>, queues: seq<int>, ports: seq<int>, i: nat)
    requires Grouped(c, choices) && Assigns(c, queues, ports) && i < |queues|
    ensures queues[i] in choices && Lists(choices[queues[i]], QueuePorts(c, queues[i]), ByWorker(c))
  {
    assert c.requester[ports[i]] in Queues(c);
  }

  method LocalSearch(c: Calibration, choices: map<int, seq<int>>, queues: seq<int>, start: seq<int>, startScore: Score,
                     ghost score: seq<int> -> Score)
    returns (ports: seq<int>, ghost trail: seq<seq<int>>)
    requires Grouped(c, choices) && Assigns(c, queues, start) && startScore == score(start) && Scores(c, score)
    ensures Assigns(c, queues, ports) && LocallyBest(c, queues, ports, score)
    ensures !Better(startScore, score(ports))
    ensures Searched(c, queues, trail, score) && trail[0] == start && trail[|trail| - 1] == ports
  {
    var best, improved := startScore, true;
    ports := start;
    trail := [start];
    while improved
      invariant Assigns(c, queues, ports) && best == score(ports)
      invariant SearchTrail(c, queues, trail, score) && trail[0] == start && trail[|trail| - 1] == ports
      invariant !Better(startScore, best)
      invariant !improved ==> LocallyBest(c, queues, ports, score)
      decreases best.maxLoad, best.spread, best.squares, improved
    {
      improved, ports, best := Improve(c, choices, queues, ports, best, score);
      if improved {
        TrailGrows(c, queues, trail, ports, score);
        trail := trail + [ports];
      }
    }
  }

  // ------------------------------------------------------------------ the whole selection

  /** The result lists one port per queue, by rising queue. */
  predicate ByQueue(c: Calibration, ports: seq<int>) {
    AllUsable(c, ports) && forall i, j :: 0 <= i < j < |ports| ==> c.requester[ports[i]] < c.requester[ports[j]]
  }

  function QueueOrder(c: Calibration): (int, int) -> bool {
    (a, b) => QueueOf(c, a) < QueueOf(c, b)
  }

  method ListByQueue(c: Calibration, queues: seq<int>, ports: seq<int>) returns (r: seq<int>)
    requires Assigns(c, queues, ports) && NoRepeats(queues)
    ensures ByQueue(c, r) && multiset(r) == multiset(ports)
  {
    var s, less := Elements(ports), QueueOrder(c);
    assert Orders(less, s) by {
      forall x, y | x in s && y in s && x != y
        ensures less(x, y) || less(y, x)
      {
        var i :| 0 <= i < |ports| && ports[i] == x;
        var j :| 0 <= j < |ports| && ports[j] == y;
        assert queues[i] != queues[j];
      }
    }
    r := SortSet(s, less);
    ListsNoRepeats(r, s, less);
    assert NoRepeats(ports) by {
      forall i, j | 0 <= i < j < |ports|
        ensures ports[i] != ports[j]
      {
        assert queues[i] != queues[j];
      }
    }
    SameMultiset(r, ports);
    forall i | 0 <= i < |r|
      ensures Usable(c, r[i])
    {
      assert r[i] in r;
    }
  }

  /** A list by rising queue is determined by what it holds. */
  lemma ByQueueUnique(c: Calibration, a: seq<int>, b: seq<int>)
    requires ByQueue(c, a) && ByQueue(c, b) && multiset(a) == multiset(b)
    ensures a == b
  {
    var ports := set p | p in a;
    forall p
      ensures p in a <==> p in b
    {
      assert p in multiset(a) <==> p in multiset(b);
    }
    forall p, q | p in ports && q in ports && p != q
      ensures QueueOf(c, p) != QueueOf(c, q)
    {
      QueuesDiffer(c, a, p, q);
    }
    ListsByQueue(c, a, ports);
    ListsByQueue(c, b, ports);
    ListsUnique(a, b, ports, QueueOrder(c));
  }

  lemma QueuesDiffer(c: Calibration, a: seq<int>, p: int, q: int)
    requires ByQueue(c, a) && p in a && q in a && p != q
    ensures QueueOf(c, p) != QueueOf(c, q)
  {
    var i :| 0 <= i < |a| && a[i] == p;
    var j :| 0 <= j < |a| && a[j] == q;
    if i < j {
      assert c.requester[a[i]] < c.requester[a[j]];
    } else {
      assert c.requester[a[j]] < c.requester[a[i]];
    }
  }

  lemma ListsByQueue(c: Calibration, a: seq<int>, ports: set<int>)
    requires ByQueue(c, a) && forall p :: p in a <==> p in ports
    ensures Lists(a, ports, QueueOrder(c))
  {
    forall i, j | 0 <= i < j < |a|
      ensures QueueOrder(c)(a[i], a[j])
    {
      assert c.requester[a[i]] < c.requester[a[j]];
    }
  }

  /** No other port of the same queue, put in place of a listed one, scores better. */
  ghost predicate NoBetterSubstitute(c: Calibration, ports: seq<int>, score: seq<int> -> Score) {
    forall i :: 0 <= i < |ports| ==> QueueBest(c, QueueOf(c, ports[i]), ports, i, score)
  }

  lemma LocallyBestListed(c: Calibration, queues: seq<int>, ports: seq<int>, r: seq<int>, score: seq<int> -> Score)
    requires Assigns(c, queues, ports) && LocallyBest(c, queues, ports, score) && multiset(r) == multiset(ports)
    requires Scores(c, score)
    ensures score(r) == score(ports) && NoBetterSubstitute(c, r, score)
  {
    SameScore(c, r, ports, score);
    forall i, p | 0 <= i < |r| && p in QueuePorts(c, QueueOf(c, r[i]))
      ensures !Better(score(r[i := p]), score(r))
    {
      assert r[i] in multiset(ports);
      var k :| 0 <= k < |ports| && ports[k] == r[i];
      assert multiset(r[i := p]) == multiset(ports[k := p]);
      SameScore(c, r[i := p], ports[k := p], score);
      assert QueueBest(c, queues[k], ports, k, score);
    }
  }

  lemma SameScore(c: Calibration, a: seq<int>, b: seq<int>, score: seq<int> -> Score)
    requires multiset(a) == multiset(b) && Scores(c, score)
    ensures score(a) == score(b)
  {
    ScoreUnordered(c, a, b);
  }

  /** The result: the first of the best starts, searched from there turn by turn, listed by queue. */
  ghost predicate Selects(c: Calibration, count: nat, first: nat, queues: seq<int>, trail: seq<seq<int>>,
                          listed: seq<int>, score: seq<int> -> Score) {
    && Searched(c, queues, trail, score) && FirstBest(c, count, first, queues, trail[0], score)
    && ByQueue(c, listed) && multiset(listed) == multiset(trail[|trail| - 1])
  }

  ghost predicate Selected(c: Calibration, count: nat, listed: seq<int>, score: seq<int> -> Score) {
    exists first: nat, queues, trail :: Selects(c, count, first, queues, trail, listed, score)
  }

  /** The selection is a function of its inputs. */
  lemma SelectionDetermined(c: Calibration, count: nat, a: seq<int>, b: seq<int>, score: seq<int> -> Score)
    requires Selected(c, count, a, score) && Selected(c, count, b, score)
    ensures a == b
  {
    var k: nat, qa, ta :| Selects(c, count, k, qa, ta, a, score);
    var l: nat, qb, tb :| Selects(c, count, l, qb, tb, b, score);
    FirstBestUnique(c, count, k, qa, ta[0], l, qb, tb[0], score);
    SearchUnique(c, qa, ta, tb, score);
    ByQueueUnique(c, a, b);
  }

  /**
   Weighted selection. It fails exactly when more ports are asked for than queues have candidates, or a negative
   number; otherwise it lists that many ports of different queues, at least as good as every greedy start and
   better than which no single substitution is.
   */
  method SelectWeightedPorts(c: Calibration, portCount: int) returns (r: Option<seq<int>>)
    ensures r.Some? <==> 0 <= portCount <= |Queues(c)|
    ensures r.Some? ==> |r.value| == portCount && ByQueue(c, r.value)
    ensures r.Some? ==> NoStartBetter(c, portCount, STARTS, Scoring(c), Scoring(c)(r.value))
    ensures r.Some? ==> NoBetterSubstitute(c, r.value, Scoring(c))
    ensures r.Some? ==> Selected(c, portCount, r.value, Scoring(c))
  {
    if portCount > |Queues(c)| || portCount < 0 {
      return None;
    }
    var listed := Search(c, portCount, Scoring(c));
    return Some(listed);
  }

  method Search(c: Calibration, portCount: nat, ghost score: seq<int> -> Score) returns (listed: seq<int>)
    requires portCount <= |Queues(c)| && Scores(c, score)
    ensures |listed| == portCount && ByQueue(c, listed)
    ensures NoStartBetter(c, portCount, STARTS, score, score(listed))
    ensures NoBetterSubstitute(c, listed, score) && Selected(c, portCount, listed, score)
  {
    var choices := GroupPorts(c);
    var queues, start, startScore, first := BestStart(c, choices, portCount, score);
    var ports, trail := LocalSearch(c, choices, queues, start, startScore, score);
    listed := ListByQueue(c, queues, ports);
    LocallyBestListed(c, queues, ports, listed, score);
    NoStartBetterLower(c, portCount, STARTS, score, startScore, score(listed));
    SameSize(listed, ports);
    assert Selects(c, portCount, first, queues, trail, listed, score);
  }
}
