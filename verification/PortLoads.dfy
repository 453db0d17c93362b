/** Calibrated ports and the weighted server load of scripts/select-boron-gun-source-ports.py. */
module PortLoads {
  import opened Sequences

  /** Which server worker and which requester queue each calibrated port reaches, and the queues' weights. */
  datatype Calibration = Calibration(server: map<int, int>, requester: map<int, int>, weights: map<int, nat>)

  predicate Usable(c: Calibration, port: int) {
    port in c.server && port in c.requester
  }

  predicate AllUsable(c: Calibration, ports: seq<int>) {
    forall i :: 0 <= i < |ports| ==> Usable(c, ports[i])
  }

  /** The worker of a usable port. */
  function WorkerOf(c: Calibration, port: int): int {
    if port in c.server then c.server[port] else 0
  }

  /** The requester queue of a usable port. */
  function QueueOf(c: Calibration, port: int): int {
    if port in c.requester then c.requester[port] else 0
  }

  function QueueWeight(c: Calibration, queue: int): nat {
    if queue in c.weights then c.weights[queue] else 1
  }

  /** What one port adds to the load of a worker. */
  function Share(c: Calibration, port: int, worker: int): nat {
    if WorkerOf(c, port) == worker then QueueWeight(c, QueueOf(c, port)) else 0
  }

  /** The weighted load the ports put on a worker. */
  function Load(c: Calibration, ports: seq<int>, worker: int): nat {
    if |ports| == 0 then 0 else Load(c, ports[..|ports| - 1], worker) + Share(c, ports[|ports| - 1], worker)
  }

  /** The workers the ports reach. */
  function Workers(c: Calibration, ports: seq<int>): set<int> {
    set p | p in ports :: WorkerOf(c, p)
  }

  // ------------------------------------------------------------------ sums and extremes over finite sets

  ghost function SumOver<T(!new)>(s: set<T>, f: T -> nat): nat {
    if s == {} then 0
    else
      var x :| x in s;
      f(x) + SumOver(s - {x}, f)
  }

  lemma {:induction false} SumOverTake<T(!new)>(s: set<T>, f: T -> nat, x: T)
    requires x in s
    ensures SumOver(s, f) == f(x) + SumOver(s - {x}, f)
    decreases |s|
  {
    var y :| y in s && SumOver(s, f) == f(y) + SumOver(s - {y}, f);
    if y != x {
      SumOverTake(s - {y}, f, x);
      SumOverTake(s - {x}, f, y);
      assert s - {y} - {x} == s - {x} - {y};
    }
  }

  lemma {:induction false} SumOverSame<T(!new)>(s: set<T>, f: T -> nat, g: T -> nat)
    requires forall x :: x in s ==> f(x) == g(x)
    ensures SumOver(s, f) == SumOver(s, g)
    decreases |s|
  {
    if s != {} {
      var x :| x in s;
      SumOverTake(s, f, x);
      SumOverTake(s, g, x);
      SumOverSame(s - {x}, f, g);
    }
  }

  ghost function Image<T(!new)>(s: set<T>, f: T -> nat): set<nat> {
    set x | x in s :: f(x)
  }

  ghost function Largest(s: set<nat>): (m: nat)
    ensures s == {} ==> m == 0
    ensures s != {} ==> m in s && forall x :: x in s ==> x <= m
  {
    if s == {} then 0
    else
      var x :| x in s;
      var rest := Largest(s - {x});
      assert forall y :: y in s ==> y == x || y in s - {x};
      if s == {x} || rest < x then x else rest
  }

  ghost function Smallest(s: set<nat>): (m: nat)
    ensures s == {} ==> m == 0
    ensures s != {} ==> m in s && forall x :: x in s ==> m <= x
  {
    if s == {} then 0
    else
      var x :| x in s;
      var rest := Smallest(s - {x});
      assert forall y :: y in s ==> y == x || y in s - {x};
      if s == {x} || x < rest then x else rest
  }

  lemma {:induction false} AddedExtremes(s: set<nat>, x: nat)
    requires s != {}
    ensures Largest(s + {x}) == if x > Largest(s) then x else Largest(s)
    ensures Smallest(s + {x}) == if x < Smallest(s) then x else Smallest(s)
  {
    assert Largest(s) in s + {x} && Smallest(s) in s + {x};
  }

  // ------------------------------------------------------------------ scores

  datatype Score = Score(maxLoad: nat, spread: nat, squares: nat)

  /** Python's order on tuples. */
  predicate Better(a: Score, b: Score) {
    || a.maxLoad < b.maxLoad
    || (a.maxLoad == b.maxLoad && a.spread < b.spread)
    || (a.maxLoad == b.maxLoad && a.spread == b.spread && a.squares < b.squares)
  }

  function Square(n: nat): nat {
    n * n
  }

  ghost function LoadOn(c: Calibration, ports: seq<int>): int -> nat {
    (w: int) => Load(c, ports, w)
  }

  ghost function SquareOn(c: Calibration, ports: seq<int>): int -> nat {
    (w: int) => Square(Load(c, ports, w))
  }

  /** The heaviest load, the distance to the lightest, and the sum of the squares, over the workers reached. */
  ghost function ScoreOf(c: Calibration, ports: seq<int>): Score {
    var workers := Workers(c, ports);
    var loads := Image(workers, LoadOn(c, ports));
    assert Smallest(loads) <= Largest(loads);
    Score(Largest(loads), Largest(loads) - Smallest(loads), SumOver(workers, SquareOn(c, ports)))
  }

  lemma {:induction false} LoadConcat(c: Calibration, a: seq<int>, b: seq<int>, w: int)
    ensures Load(c, a + b, w) == Load(c, a, w) + Load(c, b, w)
  {
    if |b| == 0 {
      assert a + b == a;
    } else {
      var n := |b| - 1;
      LoadConcat(c, a, b[..n], w);
      assert (a + b)[..|a| + n] == a + b[..n];
    }
  }

  lemma {:induction false} LoadWithout(c: Calibration, ports: seq<int>, i: nat, w: int)
    requires i < |ports|
    ensures Load(c, ports, w) == Load(c, ports[..i] + ports[i + 1..], w) + Share(c, ports[i], w)
  {
    assert ports == ports[..i] + [ports[i]] + ports[i + 1..];
    LoadConcat(c, ports[..i] + [ports[i]], ports[i + 1..], w);
    LoadConcat(c, ports[..i], [ports[i]], w);
    LoadConcat(c, ports[..i], ports[i + 1..], w);
  }

  /** A load does not depend on the order the ports are listed in. */
  lemma {:induction false} LoadUnordered(c: Calibration, a: seq<int>, b: seq<int>, w: int)
    requires multiset(a) == multiset(b)
    ensures Load(c, a, w) == Load(c, b, w)
    decreases |a|
  {
    SameSize(a, b);
    if |a| > 0 {
      var n := |a| - 1;
      assert a[n] in multiset(a);
      var i :| 0 <= i < |b| && b[i] == a[n];
      RemoveBoth(a, b, i);
      LoadUnordered(c, a[..n], b[..i] + b[i + 1..], w);
      LoadWithout(c, b, i, w);
    }
  }

  lemma SameSize(a: seq<int>, b: seq<int>)
    requires multiset(a) == multiset(b)
    ensures |a| == |b|
  {
    assert |multiset(a)| == |a| && |multiset(b)| == |b|;
  }

  lemma RemoveBoth(a: seq<int>, b: seq<int>, i: nat)
    requires |a| > 0 && i < |b| && b[i] == a[|a| - 1] && multiset(a) == multiset(b)
    ensures multiset(a[..|a| - 1]) == multiset(b[..i] + b[i + 1..])
  {
    var n := |a| - 1;
    MultisetWithout(a, n);
    MultisetWithout(b, i);
    assert a[..n] + a[n + 1..] == a[..n];
  }

  lemma MultisetWithout(s: seq<int>, i: nat)
    requires i < |s|
    ensures multiset(s) - multiset{s[i]} == multiset(s[..i] + s[i + 1..])
  {
    assert s == s[..i] + [s[i]] + s[i + 1..];
  }

  /** Nor does the score. */
  lemma ScoreUnordered(c: Calibration, a: seq<int>, b: seq<int>)
    requires multiset(a) == multiset(b)
    ensures ScoreOf(c, a) == ScoreOf(c, b)
  {
    assert forall p :: p in a <==> p in multiset(a);
    assert forall p :: p in b <==> p in multiset(b);
    assert Workers(c, a) == Workers(c, b);
    forall w
      ensures Load(c, a, w) == Load(c, b, w)
    {
      LoadUnordered(c, a, b, w);
    }
    assert Image(Workers(c, a), LoadOn(c, a)) == Image(Workers(c, b), LoadOn(c, b));
    SumOverSame(Workers(c, a), SquareOn(c, a), SquareOn(c, b));
  }

  /** The first number is the greatest load of a worker reached, and the second the distance to the least. */
  lemma ScoreMeans(c: Calibration, ports: seq<int>, w: int) returns (heaviest: int, lightest: int)
    requires w in Workers(c, ports)
    ensures var s := ScoreOf(c, ports);
            && heaviest in Workers(c, ports) && lightest in Workers(c, ports)
            && Load(c, ports, heaviest) == s.maxLoad && Load(c, ports, lightest) == s.maxLoad - s.spread
            && s.maxLoad - s.spread <= Load(c, ports, w) <= s.maxLoad
  {
    var loads := Image(Workers(c, ports), LoadOn(c, ports));
    assert LoadOn(c, ports)(w) in loads;
    heaviest :| heaviest in Workers(c, ports) && LoadOn(c, ports)(heaviest) == Largest(loads);
    lightest :| lightest in Workers(c, ports) && LoadOn(c, ports)(lightest) == Smallest(loads);
  }

  /** The weights of the ports' queues, together. */
  function TotalWeight(c: Calibration, ports: seq<int>): nat {
    if |ports| == 0 then 0
    else
      var last := ports[|ports| - 1];
      TotalWeight(c, ports[..|ports| - 1]) + QueueWeight(c, QueueOf(c, last))
  }

  ghost function ShareOn(c: Calibration, port: int): int -> nat {
    (w: int) => Share(c, port, w)
  }

  lemma {:induction false} SumOverAdds<T(!new)>(s: set<T>, f: T -> nat, g: T -> nat, h: T -> nat)
    requires forall x :: x in s ==> h(x) == f(x) + g(x)
    ensures SumOver(s, h) == SumOver(s, f) + SumOver(s, g)
    decreases |s|
  {
    if s != {} {
      var x :| x in s;
      SumOverTake(s, f, x);
      SumOverTake(s, g, x);
      SumOverTake(s, h, x);
      SumOverAdds(s - {x}, f, g, h);
    }
  }

  lemma {:induction false} SumOverOne<T(!new)>(s: set<T>, f: T -> nat, x: T)
    requires x in s && forall y :: y in s && y != x ==> f(y) == 0
    ensures SumOver(s, f) == f(x)
  {
    SumOverTake(s, f, x);
    SumOverZero(s - {x}, f);
  }

  lemma {:induction false} SumOverZero<T(!new)>(s: set<T>, f: T -> nat)
    requires forall y :: y in s ==> f(y) == 0
    ensures SumOver(s, f) == 0
    decreases |s|
  {
    if s != {} {
      var x :| x in s;
      SumOverTake(s, f, x);
      SumOverZero(s - {x}, f);
    }
  }

  /** No load is lost: over any workers that include those reached, the loads add up to the queues' weights. */
  lemma {:induction false} LoadConserved(c: Calibration, ports: seq<int>, workers: set<int>)
    requires Workers(c, ports) <= workers
    ensures SumOver(workers, LoadOn(c, ports)) == TotalWeight(c, ports)
    decreases |ports|
  {
    if |ports| == 0 {
      SumOverZero(workers, LoadOn(c, ports));
    } else {
      var init, last := ports[..|ports| - 1], ports[|ports| - 1];
      assert ports == init + [last];
      assert WorkerOf(c, last) in Workers(c, ports);
      assert Workers(c, init) <= Workers(c, ports);
      LoadConserved(c, init, workers);
      SumOverAdds(workers, LoadOn(c, init), ShareOn(c, last), LoadOn(c, ports));
      SumOverOne(workers, ShareOn(c, last), WorkerOf(c, last));
    }
  }

  /** Without weights every port counts once. */
  lemma {:induction false} UnweightedTotal(c: Calibration, ports: seq<int>)
    requires c.weights == map[]
    ensures TotalWeight(c, ports) == |ports|
  {
    if |ports| > 0 {
      UnweightedTotal(c, ports[..|ports| - 1]);
    }
  }

  // ------------------------------------------------------------------ the scoring loop

  /** The counter: the workers in the order first met, and the load of each. */
  ghost predicate Counts(c: Calibration, ports: seq<int>, order: seq<int>, load: map<int, nat>) {
    && NoRepeats(order)
    && (forall w :: w in order <==> w in load)
    && load.Keys == Workers(c, ports)
    && (forall w :: w in load ==> load[w] == Load(c, ports, w))
  }

  method CountLoads(c: Calibration, ports: seq<int>) returns (order: seq<int>, load: map<int, nat>)
    requires AllUsable(c, ports)
    ensures Counts(c, ports, order, load)
  {
    order, load := [], map[];
    for i := 0 to |ports|
      invariant Counts(c, ports[..i], order, load)
    {
      var worker := c.server[ports[i]];
      var weight := QueueWeight(c, c.requester[ports[i]]);
      LoadGrows(c, ports, i);
      if worker !in load {
        order := order + [worker];
      }
      load := load[worker := (if worker in load then load[worker] else 0) + weight];
    }
    assert ports[..|ports|] == ports;
  }

  lemma {:induction false} LoadGrows(c: Calibration, ports: seq<int>, i: nat)
    requires i < |ports|
    ensures Workers(c, ports[..i + 1]) == Workers(c, ports[..i]) + {WorkerOf(c, ports[i])}
    ensures forall w :: Load(c, ports[..i + 1], w) == Load(c, ports[..i], w) + Share(c, ports[i], w)
    ensures WorkerOf(c, ports[i]) !in Workers(c, ports[..i]) ==> Load(c, ports[..i], WorkerOf(c, ports[i])) == 0
  {
    var more, less := ports[..i + 1], ports[..i];
    assert more[..i] == less && more == less + [ports[i]];
    UnreachedIsZero(c, less, WorkerOf(c, ports[i]));
  }

  lemma {:induction false} UnreachedIsZero(c: Calibration, ports: seq<int>, w: int)
    ensures w !in Workers(c, ports) ==> Load(c, ports, w) == 0
  {
    if |ports| > 0 {
      var n := |ports| - 1;
      UnreachedIsZero(c, ports[..n], w);
      assert ports == ports[..n] + [ports[n]];
    }
  }

  /** The largest, the smallest and the sum of squares of the loads of the workers seen so far. */
  ghost predicate Tallied(c: Calibration, ports: seq<int>, seen: set<int>, maxLoad: nat, minLoad: nat, squares: nat) {
    && maxLoad == Largest(Image(seen, LoadOn(c, ports)))
    && minLoad == Smallest(Image(seen, LoadOn(c, ports)))
    && squares == SumOver(seen, SquareOn(c, ports))
  }

  lemma {:induction false} TallyFirst(c: Calibration, ports: seq<int>, w: int)
    ensures var v := Load(c, ports, w); Tallied(c, ports, {w}, v, v, Square(v))
  {
    assert Image({w}, LoadOn(c, ports)) == {Load(c, ports, w)};
    SumOverTake({w}, SquareOn(c, ports), w);
    assert {w} - {w} == {};
  }

  lemma {:induction false} TallyOne(c: Calibration, ports: seq<int>, seen: set<int>, w: int, maxLoad: nat, minLoad: nat,
                                    squares: nat)
    requires w !in seen && seen != {} && Tallied(c, ports, seen, maxLoad, minLoad, squares)
    ensures var v := Load(c, ports, w);
            Tallied(c, ports, seen + {w}, if v > maxLoad then v else maxLoad, if v < minLoad then v else minLoad,
                    squares + Square(v))
  {
    var f, g := LoadOn(c, ports), SquareOn(c, ports);
    ImageOneMore(seen, f, w);
    SumOverOneMore(seen, g, w);
    ImageNonEmpty(seen, f);
    AddedExtremes(Image(seen, f), f(w));
    assert f(w) == Load(c, ports, w) && g(w) == Square(Load(c, ports, w));
  }

  lemma ImageOneMore<T(!new)>(s: set<T>, f: T -> nat, x: T)
    ensures Image(s + {x}, f) == Image(s, f) + {f(x)}
  {
  }

  lemma {:induction false} SumOverOneMore<T(!new)>(s: set<T>, f: T -> nat, x: T)
    requires x !in s
    ensures SumOver(s + {x}, f) == f(x) + SumOver(s, f)
  {
    SumOverTake(s + {x}, f, x);
    assert s + {x} - {x} == s;
  }

  lemma ImageNonEmpty<T(!new)>(s: set<T>, f: T -> nat)
    requires s != {}
    ensures Image(s, f) != {}
  {
    var x :| x in s;
    assert f(x) in Image(s, f);
  }

  lemma {:induction false} TallyNext(c: Calibration, ports: seq<int>, order: seq<int>, i: nat, maxLoad: nat,
                                     minLoad: nat, squares: nat)
    requires NoRepeats(order) && i < |order|
    requires Tallied(c, ports, Elements(order[..i]), maxLoad, minLoad, squares)
    ensures var v := Load(c, ports, order[i]);
            Tallied(c, ports, Elements(order[..i + 1]), if i == 0 || v > maxLoad then v else maxLoad,
                    if i == 0 || v < minLoad then v else minLoad, squares + Square(v))
  {
    var seen := Elements(order[..i]);
    assert order[..i + 1] == order[..i] + [order[i]];
    assert Elements(order[..i + 1]) == seen + {order[i]};
    if i == 0 {
      TallyFirst(c, ports, order[0]);
      assert seen + {order[0]} == {order[0]};
      assert squares == 0;
    } else {
      assert order[..i][0] in seen;
      TallyOne(c, ports, seen, order[i], maxLoad, minLoad, squares);
    }
  }

  /** Python's max, min and sum of squares over the counter's values. */
  method Tally(values: seq<nat>, ghost c: Calibration, ghost ports: seq<int>, ghost order: seq<int>)
    returns (maxLoad: nat, minLoad: nat, squares: nat)
    requires NoRepeats(order) && |values| == |order|
    requires forall i :: 0 <= i < |order| ==> values[i] == Load(c, ports, order[i])
    ensures Tallied(c, ports, Elements(order), maxLoad, minLoad, squares)
  {
    maxLoad, minLoad, squares := 0, 0, 0;
    assert Image({}, LoadOn(c, ports)) == {};
    for i := 0 to |values|
      invariant Tallied(c, ports, Elements(order[..i]), maxLoad, minLoad, squares)
    {
      TallyNext(c, ports, order, i, maxLoad, minLoad, squares);
      maxLoad := if i == 0 || values[i] > maxLoad then values[i] else maxLoad;
      minLoad := if i == 0 || values[i] < minLoad then values[i] else minLoad;
      squares := squares + Square(values[i]);
    }
    assert order[..|order|] == order;
  }

  method WeightedScore(c: Calibration, ports: seq<int>) returns (score: Score)
    requires AllUsable(c, ports)
    ensures score == ScoreOf(c, ports)
  {
    var order, load := CountLoads(c, ports);
    assert Elements(order) == load.Keys by {
      forall w
        ensures w in Elements(order) <==> w in load.Keys
      {
      }
    }
    var values := seq(|order|, i requires 0 <= i < |order| && order[i] in load => load[order[i]]);
    var maxLoad, minLoad, squares := Tally(values, c, ports, order);
    score := Score(maxLoad, maxLoad - minLoad, squares);
  }

  // ------------------------------------------------------------------ the score as a value

  /** `score` gives the score of every list of ports; used where nothing else about scores matters. */
  ghost predicate Scores(c: Calibration, score: seq<int> -> Score) {
    forall ports: seq<int> {:trigger ScoreOf(c, ports)} :: score(ports) == ScoreOf(c, ports)
  }

  ghost function Scoring(c: Calibration): (score: seq<int> -> Score)
    ensures Scores(c, score)
  {
    (ports: seq<int>) => ScoreOf(c, ports)
  }

  method ScorePorts(c: Calibration, ports: seq<int>, ghost score: seq<int> -> Score) returns (r: Score)
    requires AllUsable(c, ports) && Scores(c, score)
    ensures r == score(ports)
  {
    r := WeightedScore(c, ports);
  }
}
