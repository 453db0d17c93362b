/**
 Choosing queries: the coprime-stride sampler of scripts/generate-boron-gen-query-trace.py and
 the evenly spaced sample of scripts/physical-benchmark-workload.py.
 */
module QuerySampling {
  import opened Options
  import opened Residues
  import opened Sequences

  type pos = n: int | n > 0 witness 1

  /** A zone index and a name index inside that zone. */
  datatype Pair = Pair(zone: int, name: int)

  const MULTIPLIER := 0x9E37_79B1_85EB_CA87
  const MAX_SAMPLES := 32

  function Min(a: int, b: int): int {
    if a < b then a else b
  }

  function Max(a: int, b: int): int {
    if a < b then b else a
  }

  predicate InGrid(zones: pos, names: pos, p: Pair) {
    0 <= p.zone < zones && 0 <= p.name < names
  }

  // ------------------------------------------------------------------ the order pairs are taken in

  function Edges(zones: pos, names: pos): seq<Pair> {
    [Pair(0, 0), Pair(zones - 1, names - 1), Pair(zones / 2, names / 2), Pair(0, names - 1), Pair(zones - 1, 0)]
  }

  function PairAt(names: pos, linear: nat): Pair {
    Pair(linear / names, linear % names)
  }

  function Total(zones: pos, names: pos): pos {
    Product(zones - 1, names);
    assert zones * names == (zones - 1) * names + names;
    zones * names
  }

  /** The first `k` pairs the stride visits. */
  function Visits(names: pos, total: pos, step: nat, k: nat): seq<Pair> {
    seq(k, i requires 0 <= i => PairAt(names, Residue(step, total, i)))
  }

  /** First occurrences, in order. */
  function Dedup<T(==)>(s: seq<T>): seq<T> {
    if |s| == 0 then []
    else
      var init, last := Dedup(s[..|s| - 1]), s[|s| - 1];
      if last in init then init else init + [last]
  }

  /** The least step from `step` on that is coprime to `total`; the one before `total` always is. */
  function NextCoprime(step: pos, total: pos): (r: pos)
    requires step <= Max(1, total - 1)
    ensures step <= r <= Max(1, total - 1) && Gcd(r, total) == 1
    ensures forall s :: step <= s < r ==> Gcd(s, total) != 1
    decreases total - step
  {
    if Gcd(step, total) == 1 then step
    else
      LastStepCoprime(total);
      NextCoprime(step + 1, total)
  }

  lemma LastStepCoprime(total: pos)
    ensures Gcd(Max(1, total - 1), total) == 1
  {
    if total >= 2 {
      PredecessorCoprime(total);
    }
  }

  function StepFor(total: pos): (r: pos)
    ensures Gcd(r, total) == 1
  {
    NextCoprime(Max(1, MULTIPLIER % total), total)
  }

  /** Corners and centre first, then one whole round of the stride, without repeats. */
  function Order(zones: pos, names: pos): seq<Pair> {
    var total := Total(zones, names);
    Dedup(Edges(zones, names) + Visits(names, total, StepFor(total), total))
  }

  /** The corners and the centre, until there are enough. */
  method TakeEdges(edges: seq<Pair>, count: nat, ghost visits: seq<Pair>) returns (pairs: seq<Pair>, seen: set<Pair>)
    requires count > 0
    ensures seen == set p | p in pairs
    ensures |pairs| <= count && pairs <= Dedup(edges + visits)
    ensures |pairs| < count ==> pairs == Dedup(edges)
  {
    pairs := [];
    seen := {};
    for i := 0 to |edges|
      invariant pairs == Dedup(edges[..i])
      invariant seen == set p | p in pairs
      invariant |pairs| < count
    {
      assert edges[..i + 1][..i] == edges[..i];
      if edges[i] !in seen {
        seen := seen + {edges[i]};
        pairs := pairs + [edges[i]];
      }
      if |pairs| == count {
        assert edges + visits == edges[..i + 1] + (edges[i + 1..] + visits);
        DedupGrows(edges[..i + 1], edges[i + 1..] + visits);
        return;
      }
    }
    assert edges[..|edges|] == edges;
    DedupGrows(edges, visits);
  }

  method FindStep(total: pos) returns (step: pos)
    ensures step == StepFor(total)
  {
    step := Max(1, MULTIPLIER % total);
    while Gcd(step, total) != 1
      invariant 1 <= step <= Max(1, total - 1)
      invariant NextCoprime(step, total) == StepFor(total)
      decreases total - step
    {
      LastStepCoprime(total);
      step := step + 1;
    }
  }

  method SampledPairs(zones: pos, names: pos, wanted: pos) returns (pairs: seq<Pair>)
    ensures |pairs| == Min(wanted, zones * names)
    ensures pairs <= Order(zones, names)
    ensures NoRepeats(pairs)
    ensures forall p :: p in pairs ==> InGrid(zones, names, p)
    ensures exists step: pos, at: seq<nat> ::
              IsStep(Total(zones, names), step) && Taken(zones, names, step, pairs, at)
  {
    var total := Total(zones, names);
    var count := Min(wanted, total);
    OrderIsPermutation(zones, names);
    ghost var visits := Visits(names, total, StepFor(total), total);
    var edges := Edges(zones, names);
    var seen;
    pairs, seen := TakeEdges(edges, count, visits);
    if |pairs| < count {
      var step := FindStep(total);
      StrideCollects(edges, names, total, step);
      pairs := Stride(Visiting(names, total, step), total, count, pairs, seen, Collecting(edges, names, total, step));
    }
    PrefixKeeps(pairs, Order(zones, names), zones, names);
    ghost var step, at := SampleTakes(zones, names, pairs);
  }

  /** `collected(k)` is what the first `k` visits leave of the order. */
  ghost predicate Collects(visit: nat -> Pair, total: nat, first: seq<Pair>, collected: nat -> seq<Pair>) {
    && collected(0) == first
    && (forall k: nat :: CollectsAt(visit, collected, k))
    && (forall k: nat :: k <= total ==> collected(k) <= collected(total))
  }

  ghost predicate CollectsAt(visit: nat -> Pair, collected: nat -> seq<Pair>, k: nat) {
    collected(k + 1) == if visit(k) in collected(k) then collected(k) else collected(k) + [visit(k)]
  }

  function Visiting(names: pos, total: pos, step: nat): nat -> Pair {
    (k: nat) => PairAt(names, Residue(step, total, k))
  }

  ghost function Collecting(edges: seq<Pair>, names: pos, total: pos, step: nat): nat -> seq<Pair> {
    (k: nat) => Dedup(edges + Visits(names, total, step, k))
  }

  /** The pairs the stride visits, until there are enough. */
  method Stride(visit: nat -> Pair, total: nat, count: nat, first: seq<Pair>, firstSeen: set<Pair>,
                ghost collected: nat -> seq<Pair>)
    returns (pairs: seq<Pair>)
    requires firstSeen == set p | p in first
    requires Collects(visit, total, first, collected) && |first| < count <= |collected(total)|
    ensures |pairs| == count && pairs <= collected(total)
  {
    pairs := first;
    var seen := firstSeen;
    var candidate: nat := 0;
    while |pairs| < count
      invariant candidate <= total && |pairs| <= count
      invariant pairs == collected(candidate)
      invariant seen == set p | p in pairs
      decreases total - candidate
    {
      assert CollectsAt(visit, collected, candidate);
      var pair := visit(candidate);
      if pair !in seen {
        seen := seen + {pair};
        pairs := pairs + [pair];
      }
      candidate := candidate + 1;
    }
  }

  lemma {:induction false} StrideCollects(edges: seq<Pair>, names: pos, total: pos, step: nat)
    ensures Collects(Visiting(names, total, step), total, Dedup(edges), Collecting(edges, names, total, step))
  {
    var visit, collected := Visiting(names, total, step), Collecting(edges, names, total, step);
    assert edges + Visits(names, total, step, 0) == edges;
    forall k: nat
      ensures CollectsAt(visit, collected, k)
    {
      VisitsGrow(edges, names, total, step, k);
    }
    forall k: nat | k <= total
      ensures collected(k) <= collected(total)
    {
      VisitsPrefix(edges, names, total, step, k);
    }
  }

  lemma {:induction false} VisitsPrefix(edges: seq<Pair>, names: pos, total: pos, step: nat, k: nat)
    requires k <= total
    ensures Dedup(edges + Visits(names, total, step, k)) <= Dedup(edges + Visits(names, total, step, total))
  {
    VisitsSplit(names, total, step, k);
    var visits := Visits(names, total, step, total);
    assert edges + visits == (edges + Visits(names, total, step, k)) + visits[k..];
    DedupGrows(edges + Visits(names, total, step, k), visits[k..]);
  }

  // ------------------------------------------------------------------ why the round is complete

  lemma {:induction false} DedupLaws<T>(s: seq<T>)
    ensures NoRepeats(Dedup(s))
    ensures forall x :: x in Dedup(s) <==> x in s
  {
    if |s| > 0 {
      DedupLaws(s[..|s| - 1]);
      assert s == s[..|s| - 1] + [s[|s| - 1]];
    }
  }

  lemma {:induction false} DedupGrows<T>(a: seq<T>, b: seq<T>)
    ensures Dedup(a) <= Dedup(a + b)
  {
    if |b| == 0 {
      assert a + b == a;
    } else {
      var n := |b| - 1;
      assert (a + b)[..|a| + n] == a + b[..n];
      DedupGrows(a, b[..n]);
    }
  }

  lemma VisitsGrow(edges: seq<Pair>, names: pos, total: pos, step: nat, k: nat)
    ensures var more := edges + Visits(names, total, step, k + 1);
            && more[..|more| - 1] == edges + Visits(names, total, step, k)
            && more[|more| - 1] == PairAt(names, Residue(step, total, k))
  {
  }

  lemma VisitsSplit(names: pos, total: pos, step: nat, k: nat)
    requires k <= total
    ensures Visits(names, total, step, total) == Visits(names, total, step, k) + Visits(names, total, step, total)[k..]
  {
  }

  lemma PrefixKeeps(pairs: seq<Pair>, order: seq<Pair>, zones: pos, names: pos)
    requires pairs <= order && NoRepeats(order) && forall p :: p in order <==> InGrid(zones, names, p)
    ensures NoRepeats(pairs)
    ensures forall p :: p in pairs ==> InGrid(zones, names, p)
  {
    assert forall i :: 0 <= i < |pairs| ==> pairs[i] == order[i];
    forall i | 0 <= i < |pairs|
      ensures InGrid(zones, names, pairs[i])
    {
      assert order[i] in order;
    }
  }

  function Code(names: pos, p: Pair): int {
    p.zone * names + p.name
  }

  lemma CodeInRange(zones: pos, names: pos, p: Pair)
    requires InGrid(zones, names, p)
    ensures 0 <= Code(names, p) < Total(zones, names)
    ensures PairAt(names, Code(names, p)) == p
  {
    Product(p.zone, names);
    Product(zones - 1 - p.zone, names);
    assert (zones - 1 - p.zone) * names == zones * names - names - p.zone * names;
    QuotientAndRest(Code(names, p), p.zone, names, p.name);
  }

  lemma PairInGrid(zones: pos, names: pos, linear: nat)
    requires linear < Total(zones, names)
    ensures InGrid(zones, names, PairAt(names, linear))
    ensures Code(names, PairAt(names, linear)) == linear
  {
    var q := linear / names;
    assert linear == q * names + linear % names;
    FactorBound(q, zones, names);
  }

  lemma FactorBound(q: int, zones: int, names: pos)
    requires q * names < zones * names
    ensures q < zones
  {
  }

  ghost function Codes(names: pos, s: seq<Pair>): set<int> {
    set i | 0 <= i < |s| :: Code(names, s[i])
  }

  lemma {:induction false} CodesSize(zones: pos, names: pos, s: seq<Pair>)
    requires NoRepeats(s) && forall p :: p in s ==> InGrid(zones, names, p)
    ensures |Codes(names, s)| == |s|
  {
    if |s| > 0 {
      var n := |s| - 1;
      var init, last := s[..n], s[n];
      assert forall p :: p in init ==> p in s;
      CodesSize(zones, names, init);
      forall i | 0 <= i < n
        ensures Code(names, s[i]) != Code(names, last)
      {
        assert s[i] in s && last in s;
        CodeInRange(zones, names, s[i]);
        CodeInRange(zones, names, last);
      }
      assert Codes(names, s) == Codes(names, init) + {Code(names, last)};
    }
  }

  /** The order holds every pair of the grid exactly once. */
  lemma OrderIsPermutation(zones: pos, names: pos)
    ensures NoRepeats(Order(zones, names))
    ensures forall p :: p in Order(zones, names) <==> InGrid(zones, names, p)
    ensures |Order(zones, names)| == Total(zones, names) == zones * names
  {
    var total := Total(zones, names);
    var step := StepFor(total);
    var edges, visits := Edges(zones, names), Visits(names, total, step, total);
    var order := Order(zones, names);
    DedupLaws(edges + visits);
    forall p | InGrid(zones, names, p)
      ensures p in visits
    {
      CodeInRange(zones, names, p);
      var i := StrideSurjective(step, total, Code(names, p));
      assert visits[i] == p;
    }
    forall i | 0 <= i < |visits|
      ensures InGrid(zones, names, visits[i])
    {
      PairInGrid(zones, names, Residue(step, total, i));
    }
    assert forall p :: p in edges ==> InGrid(zones, names, p);
    CodesSize(zones, names, order);
    CodesAreAll(zones, names, order);
  }

  lemma CodesAreAll(zones: pos, names: pos, order: seq<Pair>)
    requires forall p :: p in order <==> InGrid(zones, names, p)
    ensures |Codes(names, order)| == Total(zones, names)
  {
    var codes, all := Codes(names, order), Below(Total(zones, names));
    forall i | 0 <= i < |order|
      ensures Code(names, order[i]) in all
    {
      assert order[i] in order;
      CodeInRange(zones, names, order[i]);
    }
    forall linear | linear in all
      ensures linear in codes
    {
      PairInGrid(zones, names, linear);
      var i :| 0 <= i < |order| && order[i] == PairAt(names, linear);
    }
    assert codes == all;
  }

  // ------------------------------------------------------------------ which pairs come first

  /** The pairs as they come up: the four corners and the centre, then the stride over the numbered grid. */
  function Candidate(zones: pos, names: pos, step: nat, k: nat): Pair {
    if k == 0 then Pair(0, 0)
    else if k == 1 then Pair(zones - 1, names - 1)
    else if k == 2 then Pair(zones / 2, names / 2)
    else if k == 3 then Pair(0, names - 1)
    else if k == 4 then Pair(zones - 1, 0)
    else
      Product(k - 5, step);
      var linear := (k - 5) * step % Total(zones, names);
      Pair(linear / names, linear % names)
  }

  /** The least step, from the scaled multiplier on, that has no divisor in common with the number of pairs. */
  ghost predicate IsStep(total: pos, step: pos) {
    && step >= Max(1, 0x9E37_79B1_85EB_CA87 % total) && Gcd(step, total) == 1
    && forall s :: Max(1, 0x9E37_79B1_85EB_CA87 % total) <= s < step ==> Gcd(s, total) != 1
  }

  /** The pairs are the candidates at rising places, and each candidate before one of these is among those taken. */
  ghost predicate Taken(zones: pos, names: pos, step: nat, pairs: seq<Pair>, at: seq<nat>) {
    && |at| == |pairs| && Increasing(at)
    && (forall i :: 0 <= i < |at| ==> pairs[i] == Candidate(zones, names, step, at[i]))
    && (forall i, k: nat :: 0 <= i < |at| && k < at[i] ==> Candidate(zones, names, step, k) in pairs[..i])
  }

  /** `firsts` stand in `s` at rising places, and what stands before one of them occurred earlier. */
  ghost predicate Places<T>(s: seq<T>, firsts: seq<T>, at: seq<nat>) {
    && |at| == |firsts| && Increasing(at)
    && (forall i :: 0 <= i < |at| ==> at[i] < |s| && firsts[i] == s[at[i]])
    && (forall i, k :: 0 <= i < |at| && 0 <= k < at[i] && k < |s| ==> s[k] in firsts[..i])
  }

  lemma PlacesRepeat<T>(s: seq<T>, x: T, firsts: seq<T>, at: seq<nat>)
    requires Places(s, firsts, at)
    ensures Places(s + [x], firsts, at)
  {
    var more := s + [x];
    forall i, k | 0 <= i < |at| && 0 <= k < at[i] && k < |more|
      ensures more[k] in firsts[..i]
    {
      assert more[k] == s[k];
    }
  }

  lemma PlacesNew<T>(s: seq<T>, x: T, firsts: seq<T>, at: seq<nat>)
    requires Places(s, firsts, at) && forall y :: y in s ==> y in firsts
    ensures Places(s + [x], firsts + [x], at + [|s|])
  {
    var more, places, taken := s + [x], at + [|s|], firsts + [x];
    forall i, k | 0 <= i < |places| && 0 <= k < places[i] && k < |more|
      ensures more[k] in taken[..i]
    {
      assert more[k] == s[k] && s[k] in s;
      assert taken[..i] == firsts[..i];
      assert firsts[..|firsts|] == firsts;
    }
  }

  lemma {:induction false} DedupPlaces<T>(s: seq<T>) returns (at: seq<nat>)
    ensures Places(s, Dedup(s), at)
  {
    if |s| == 0 {
      at := [];
    } else {
      var init, last := s[..|s| - 1], s[|s| - 1];
      at := DedupPlaces(init);
      DedupLaws(init);
      assert s == init + [last];
      if last in Dedup(init) {
        PlacesRepeat(init, last, Dedup(init), at);
      } else {
        PlacesNew(init, last, Dedup(init), at);
        at := at + [|init|];
      }
    }
  }

  lemma CandidatesAre(zones: pos, names: pos, k: nat)
    requires k < 5 + zones * names
    ensures var total := Total(zones, names);
            var all := Edges(zones, names) + Visits(names, total, StepFor(total), total);
            |all| == 5 + total && all[k] == Candidate(zones, names, StepFor(total), k)
  {
    var total := Total(zones, names);
    var edges, visits := Edges(zones, names), Visits(names, total, StepFor(total), total);
    if k >= 5 {
      assert (edges + visits)[k] == visits[k - 5];
    } else {
      assert (edges + visits)[k] == edges[k];
    }
  }

  lemma StepIsLeast(total: pos)
    ensures IsStep(total, StepFor(total))
  {
  }

  /** Every sample takes its pairs as they come up, with the script's step. */
  lemma SampleTakes(zones: pos, names: pos, pairs: seq<Pair>) returns (step: pos, at: seq<nat>)
    requires pairs <= Order(zones, names)
    ensures IsStep(Total(zones, names), step) && Taken(zones, names, step, pairs, at)
  {
    var total := Total(zones, names);
    step := StepFor(total);
    StepIsLeast(total);
    var all := Edges(zones, names) + Visits(names, total, step, total);
    var places := DedupPlaces(all);
    at := places[..|pairs|];
    forall i | 0 <= i < |at|
      ensures pairs[i] == Candidate(zones, names, step, at[i])
      ensures forall k: nat :: k < at[i] ==> Candidate(zones, names, step, k) in pairs[..i]
    {
      CandidatesAre(zones, names, at[i]);
      assert pairs[..i] == Dedup(all)[..i];
      forall k: nat | k < at[i]
        ensures Candidate(zones, names, step, k) in pairs[..i]
      {
        CandidatesAre(zones, names, k);
      }
    }
  }

  /** So a sample begins with the first corner and, if it has two pairs, the opposite one. */
  lemma CornersFirst(zones: pos, names: pos, step: nat, pairs: seq<Pair>, at: seq<nat>)
    requires Taken(zones, names, step, pairs, at) && NoRepeats(pairs) && zones * names > 1
    ensures |pairs| > 0 ==> pairs[0] == Pair(0, 0)
    ensures |pairs| > 1 ==> pairs[1] == Pair(zones - 1, names - 1)
  {
    if |pairs| > 0 {
      var first, second := Candidate(zones, names, step, 0), Candidate(zones, names, step, 1);
      assert first !in pairs[..0];
      assert at[0] == 0;
      if |pairs| > 1 {
        assert first != second;
        assert second !in pairs[..1];
        assert at[1] == 1;
      }
    }
  }

  /** And one of five pairs or more holds the four corners and the centre. */
  lemma CornersAndCentre(zones: pos, names: pos, step: nat, pairs: seq<Pair>, at: seq<nat>)
    requires Taken(zones, names, step, pairs, at) && |pairs| >= 5
    ensures Pair(0, 0) in pairs && Pair(zones - 1, names - 1) in pairs && Pair(zones / 2, names / 2) in pairs
    ensures Pair(0, names - 1) in pairs && Pair(zones - 1, 0) in pairs
  {
    forall k: nat | k < 5
      ensures Candidate(zones, names, step, k) in pairs
    {
      RisingPlaces(at, k);
      if at[k] > k {
        assert Candidate(zones, names, step, k) in pairs[..k];
      } else {
        assert pairs[k] == Candidate(zones, names, step, k);
      }
    }
    assert Candidate(zones, names, step, 0) in pairs && Candidate(zones, names, step, 1) in pairs;
    assert Candidate(zones, names, step, 2) in pairs && Candidate(zones, names, step, 3) in pairs;
    assert Candidate(zones, names, step, 4) in pairs;
  }

  lemma {:induction false} RisingPlaces(at: seq<nat>, k: nat)
    requires Increasing(at) && k < |at|
    ensures at[k] >= k
  {
    if k > 0 {
      RisingPlaces(at, k - 1);
    }
  }

  /** A larger sample extends a smaller one. */
  lemma SamplesNest(zones: pos, names: pos, few: seq<Pair>, many: seq<Pair>)
    requires few <= Order(zones, names) && many <= Order(zones, names) && |few| <= |many|
    ensures few <= many
  {
    var order := Order(zones, names);
    assert few == order[..|few|] && many == order[..|many|];
  }

  // ------------------------------------------------------------------ the evenly spaced sample

  datatype Sample<Q> = Sample(index: nat, query: Q)

  function SampleSize(count: pos): pos {
    Min(MAX_SAMPLES, count)
  }

  /** The index of the k-th sample: k * (count - 1) // (size - 1), or 0 for a single one. */
  function SampleIndex(count: pos, k: nat): nat {
    if SampleSize(count) == 1 then 0
    else
      Product(k, count - 1);
      k * (count - 1) / (SampleSize(count) - 1)
  }

  lemma QuotientGrows(a: nat, b: nat, d: pos)
    requires a + d <= b
    ensures a / d < b / d
  {
    var q, r := a / d, a % d;
    assert a == q * d + r;
    assert (q + 1) * d <= b;
    var q' := b / d;
    assert b == q' * d + b % d;
    FactorBound(q, q' + 1, d);
    if q' == q {
      assert false;
    }
  }

  /** Evenly spaced, rounded down: the index is the greatest that is not past its share of the way. */
  lemma SampleIndexIs(count: pos, k: nat)
    requires SampleSize(count) > 1
    ensures var share, gap := k * (count - 1), SampleSize(count) - 1;
            share - gap < SampleIndex(count, k) * gap <= share
  {
    Product(k, count - 1);
    var share, gap := k * (count - 1), SampleSize(count) - 1;
    assert share == (share / gap) * gap + share % gap;
  }

  /** Consecutive sample indices never collide: there are at least as many queries as samples. */
  lemma SampleIndexGrows(count: pos, k: nat)
    requires k + 1 < SampleSize(count)
    ensures SampleIndex(count, k) < SampleIndex(count, k + 1)
  {
    Product(k, count - 1);
    assert (k + 1) * (count - 1) == k * (count - 1) + (count - 1);
    QuotientGrows(k * (count - 1), (k + 1) * (count - 1), SampleSize(count) - 1);
  }

  lemma {:induction false} SampleIndexOrdered(count: pos, j: nat, k: nat)
    requires j < k < SampleSize(count)
    ensures SampleIndex(count, j) < SampleIndex(count, k)
    decreases k
  {
    SampleIndexGrows(count, k - 1);
    if j < k - 1 {
      SampleIndexOrdered(count, j, k - 1);
    }
  }

  lemma SampleIndexEnds(count: pos)
    ensures SampleIndex(count, 0) == 0
    ensures SampleIndex(count, SampleSize(count) - 1) == if SampleSize(count) == 1 then 0 else count - 1
  {
    var n := SampleSize(count) - 1;
    if n > 0 {
      QuotientAndRest(0, 0, n, 0);
      assert 0 * (count - 1) == 0;
      QuotientAndRest(n * (count - 1), count - 1, n, 0);
    }
  }

  ghost predicate Increasing(at: seq<nat>) {
    forall j, k :: 0 <= j < k < |at| ==> at[j] < at[k]
  }

  /** Walks the queries once and keeps those whose index was selected. */
  method KeepSelected<Q>(queries: seq<Q>, selected: set<nat>, ghost at: seq<nat>) returns (samples: seq<Sample<Q>>)
    requires Increasing(at) && forall k :: 0 <= k < |at| ==> at[k] < |queries|
    requires forall i :: i in selected <==> i in at
    ensures |samples| == |at|
    ensures forall k :: 0 <= k < |at| ==> samples[k] == Sample(at[k], queries[at[k]])
  {
    samples := [];
    for index := 0 to |queries|
      invariant |samples| <= |at|
      invariant forall k :: 0 <= k < |samples| ==> at[k] < index && samples[k] == Sample(at[k], queries[at[k]])
      invariant forall k :: |samples| <= k < |at| ==> index <= at[k]
    {
      if index in selected {
        ghost var k :| 0 <= k < |at| && at[k] == index;
        assert |samples| <= k;
        assert index <= at[|samples|] <= at[k];
        samples := samples + [Sample(index, queries[index])];
      }
    }
    assert |samples| == |at|;
  }

  ghost function SampleIndices(count: pos): (at: seq<nat>)
    ensures |at| == SampleSize(count)
    ensures forall k :: 0 <= k < |at| ==> at[k] == SampleIndex(count, k)
  {
    seq(SampleSize(count), k requires 0 <= k => SampleIndex(count, k))
  }

  /** Exactly min(32, count) strictly increasing indices, from the first query to the last. */
  lemma SampleIndicesSpread(count: pos)
    ensures Increasing(SampleIndices(count))
    ensures |SampleIndices(count)| == Min(32, count)
    ensures SampleIndices(count)[0] == 0
    ensures |SampleIndices(count)| > 1 ==> SampleIndices(count)[|SampleIndices(count)| - 1] == count - 1
    ensures forall k :: 0 <= k < |SampleIndices(count)| ==> SampleIndices(count)[k] < count
  {
    var at := SampleIndices(count);
    SampleIndexEnds(count);
    forall j, k | 0 <= j < k < |at|
      ensures at[j] < at[k]
    {
      SampleIndexOrdered(count, j, k);
    }
    var n := |at| - 1;
    forall k | 0 <= k < |at|
      ensures at[k] <= at[n]
    {
      if k < n {
        SampleIndexOrdered(count, k, n);
      }
    }
  }

  /** The samples are the queries at those indices. */
  ghost predicate Samples<Q>(queries: seq<Q>, samples: seq<Sample<Q>>)
    requires |queries| > 0
  {
    var at := SampleIndices(|queries|);
    && |samples| == |at|
    && forall k :: 0 <= k < |at| ==> at[k] < |queries| && samples[k] == Sample(at[k], queries[at[k]])
  }

  /** The manifest's samples; an empty query database is refused. */
  method SelectSamples<Q>(queries: seq<Q>) returns (r: Option<seq<Sample<Q>>>)
    ensures r.Some? <==> queries != []
    ensures r.Some? ==> Samples(queries, r.value)
  {
    if |queries| == 0 {
      return None;
    }
    var count: pos := |queries|;
    var size := SampleSize(count);
    var selected := set k: nat | k < size :: SampleIndex(count, k);
    SampleIndicesSpread(count);
    ghost var at := SampleIndices(count);
    forall i: nat
      ensures i in selected <==> i in at
    {
      if i in selected {
        var k: nat :| k < size && SampleIndex(count, k) == i;
        assert at[k] == i;
      }
    }
    var samples := KeepSelected(queries, selected, at);
    return Some(samples);
  }
}
