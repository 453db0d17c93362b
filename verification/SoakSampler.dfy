/** The resource sampler history checked by scripts/validate-collected-campaign.py. */
module SoakSampler {
  import opened Options

  const TOLERANCE := 2

  /** How an attempt ended; both or neither marker present is ambiguous. */
  datatype Terminal =
    | Success(epoch: int, passed: bool, deadline: int, lastSample: int)
    | Failure(epoch: int, failed: bool)
    | Ambiguous

  /**
   One sampler attempt. `policy` says that its metadata repeats the campaign's deadline and interval, `details`
   that its sample and process rows are well formed and agree with each other; `start` is its start epoch.
   */
  datatype Attempt = Attempt(policy: bool, details: bool, start: int, epochs: seq<int>, terminal: Terminal)

  datatype Campaign = Campaign(start: int, deadline: int, interval: int)

  predicate StrictlyIncreasing(s: seq<int>) {
    forall i, j :: 0 <= i < j < |s| ==> s[i] < s[j]
  }

  predicate Near(s: seq<int>, i: nat, limit: int)
    requires i + 1 < |s|
  {
    s[i + 1] - s[i] <= limit
  }

  predicate NoGap(s: seq<int>, limit: int) {
    forall i: nat :: i + 1 < |s| ==> Near(s, i, limit)
  }

  function Last(s: seq<int>): int
    requires |s| > 0
  {
    s[|s| - 1]
  }

  /** The attempt is sound by itself: it starts with a sample and keeps the cadence. */
  predicate Sound(c: Campaign, a: Attempt) {
    && a.policy && a.details
    && |a.epochs| > 0
    && StrictlyIncreasing(a.epochs)
    && a.start <= a.epochs[0] <= a.start + TOLERANCE
    && NoGap(a.epochs, c.interval + TOLERANCE)
  }

  /** The attempt begins where the campaign does, or picks up from the attempt before it. */
  predicate Continues(c: Campaign, a: Attempt, previous: Option<(int, int)>) {
    match previous
    case None => c.start <= a.start <= c.start + TOLERANCE
    case Some((lastSample, ended)) => ended <= a.start && a.start - lastSample <= c.interval + TOLERANCE
  }

  /** Only the final attempt may end in success, having sampled past the deadline. */
  predicate EndsWell(c: Campaign, a: Attempt, final: bool)
    requires |a.epochs| > 0
  {
    match a.terminal
    case Success(epoch, passed, deadline, lastSample) =>
      && final && passed && deadline == c.deadline && lastSample == Last(a.epochs)
      && c.deadline <= Last(a.epochs) <= epoch
    case Failure(epoch, failed) => failed && Last(a.epochs) <= epoch
    case Ambiguous => false
  }

  function Ended(a: Attempt): int {
    if a.terminal.Ambiguous? then 0 else a.terminal.epoch
  }

  function Before(attempts: seq<Attempt>, k: nat): Option<(int, int)>
    requires k <= |attempts|
    requires k > 0 ==> |attempts[k - 1].epochs| > 0
  {
    if k == 0 then None else Some((Last(attempts[k - 1].epochs), Ended(attempts[k - 1])))
  }

  predicate AttemptOk(c: Campaign, attempts: seq<Attempt>, k: nat)
    requires k < |attempts|
  {
    && Sound(c, attempts[k])
    && (k > 0 ==> |attempts[k - 1].epochs| > 0)
    && Continues(c, attempts[k], Before(attempts, k))
    && EndsWell(c, attempts[k], k == |attempts| - 1)
  }

  /** What is accepted: every attempt is in order and the last one, and no other, succeeded. */
  predicate HistoryOk(c: Campaign, attempts: seq<Attempt>) {
    && |attempts| > 0
    && (forall k :: 0 <= k < |attempts| ==> AttemptOk(c, attempts, k))
    && attempts[|attempts| - 1].terminal.Success?
  }

  method VerifySoakSampler(c: Campaign, attempts: seq<Attempt>) returns (ok: bool)
    ensures ok <==> HistoryOk(c, attempts)
  {
    if |attempts| == 0 {
      return false;
    }
    var previous: Option<(int, int)> := None;
    var completed := 0;
    for k := 0 to |attempts|
      invariant forall j :: 0 <= j < k ==> AttemptOk(c, attempts, j)
      invariant k > 0 ==> |attempts[k - 1].epochs| > 0 && previous == Before(attempts, k)
      invariant k == 0 ==> previous == None
      invariant completed == if k == |attempts| && attempts[k - 1].terminal.Success? then 1 else 0
    {
      var a := attempts[k];
      assert HistoryOk(c, attempts) ==> AttemptOk(c, attempts, k);
      if !a.policy || |a.epochs| == 0 {
        return false;
      }
      if !StrictlyIncreasing(a.epochs) || !(a.start <= a.epochs[0] <= a.start + TOLERANCE) {
        return false;
      }
      if !NoGap(a.epochs, c.interval + TOLERANCE) {
        return false;
      }
      if !Continues(c, a, previous) || !a.details {
        return false;
      }
      var terminalEpoch := 0;
      match a.terminal {
        case Ambiguous =>
          return false;
        case Success(completedEpoch, passed, deadline, lastSample) =>
          if k != |attempts| - 1 || !passed || deadline != c.deadline || lastSample != Last(a.epochs)
             || Last(a.epochs) < c.deadline || completedEpoch < Last(a.epochs) {
            return false;
          }
          completed := completed + 1;
          terminalEpoch := completedEpoch;
        case Failure(failedEpoch, failed) =>
          if !failed || failedEpoch < Last(a.epochs) {
            return false;
          }
          terminalEpoch := failedEpoch;
      }
      previous := Some((Last(a.epochs), terminalEpoch));
      assert AttemptOk(c, attempts, k);
    }
    return completed == 1;
  }

  // ------------------------------------------------------------------ what an accepted history says

  /** Every attempt but the last failed, and the last succeeded. */
  lemma OnlyLastSucceeds(c: Campaign, attempts: seq<Attempt>, k: nat)
    requires HistoryOk(c, attempts) && k < |attempts|
    ensures attempts[k].terminal.Success? <==> k == |attempts| - 1
    ensures attempts[k].terminal.Failure? <==> k < |attempts| - 1
  {
    assert AttemptOk(c, attempts, k);
  }

  /** All samples of the first `k` attempts, in order. */
  function Samples(attempts: seq<Attempt>, k: nat): seq<int>
    requires k <= |attempts|
  {
    if k == 0 then [] else Samples(attempts, k - 1) + attempts[k - 1].epochs
  }

  /** Consecutive samples never go back, and are at most `limit` apart. */
  predicate Steady(samples: seq<int>, limit: int) {
    forall i: nat :: i + 1 < |samples| ==> Near(samples, i, limit) && samples[i] <= samples[i + 1]
  }

  lemma OwnSamplesSteady(c: Campaign, a: Attempt)
    requires Sound(c, a)
    ensures Steady(a.epochs, c.interval + 2 * TOLERANCE)
  {
    var limit := c.interval + 2 * TOLERANCE;
    forall i: nat | i + 1 < |a.epochs|
      ensures Near(a.epochs, i, limit)
    {
      assert Near(a.epochs, i, c.interval + TOLERANCE);
    }
  }

  lemma SteadyConcat(a: seq<int>, b: seq<int>, limit: int)
    requires Steady(a, limit) && Steady(b, limit)
    requires |a| > 0 && |b| > 0 && Last(a) <= b[0] <= Last(a) + limit
    ensures Steady(a + b, limit) && Last(a + b) == Last(b)
  {
    var s := a + b;
    forall i: nat | i + 1 < |s|
      ensures Near(s, i, limit) && s[i] <= s[i + 1]
    {
      if i + 1 < |a| {
        assert Near(a, i, limit);
      } else if i >= |a| {
        assert Near(b, i - |a|, limit);
      }
    }
  }

  /** Attempts follow one another without a hole: across two of them samples are at most interval + 4 apart. */
  lemma {:induction false} SamplesSteady(c: Campaign, attempts: seq<Attempt>, k: nat)
    requires HistoryOk(c, attempts) && 0 < k <= |attempts|
    ensures |attempts[k - 1].epochs| > 0 && |Samples(attempts, k)| > 0
    ensures Steady(Samples(attempts, k), c.interval + 4)
    ensures c.start <= Samples(attempts, k)[0] <= c.start + 4
    ensures Last(Samples(attempts, k)) == Last(attempts[k - 1].epochs)
  {
    assert AttemptOk(c, attempts, k - 1);
    OwnSamplesSteady(c, attempts[k - 1]);
    if k > 1 {
      SamplesSteady(c, attempts, k - 1);
      assert AttemptOk(c, attempts, k - 2);
      SteadyConcat(Samples(attempts, k - 1), attempts[k - 1].epochs, c.interval + 2 * TOLERANCE);
    } else {
      assert Samples(attempts, 1) == attempts[0].epochs;
    }
  }

  /** The samples of a whole history never go back in time. */
  lemma {:induction false} SamplesInOrder(samples: seq<int>, limit: int, i: nat, j: nat)
    requires Steady(samples, limit) && i <= j < |samples|
    ensures samples[i] <= samples[j]
    decreases j
  {
    if i < j {
      SamplesInOrder(samples, limit, i, j - 1);
      assert Near(samples, j - 1, limit);
    }
  }

  /**
   Every instant of the campaign is followed by a sample within interval + 4 seconds: the deadline is covered
   and no failed attempt leaves a hole.
   */
  lemma EveryInstantSampled(c: Campaign, attempts: seq<Attempt>, t: int) returns (i: nat)
    requires HistoryOk(c, attempts) && c.interval > 0
    requires c.start <= t <= c.deadline
    ensures i < |Samples(attempts, |attempts|)|
    ensures t <= Samples(attempts, |attempts|)[i] <= t + c.interval + 4
    ensures forall j :: 0 <= j < i ==> Samples(attempts, |attempts|)[j] < t
  {
    var n := |attempts|;
    SamplesSteady(c, attempts, n);
    assert AttemptOk(c, attempts, n - 1);
    var samples := Samples(attempts, n);
    i := 0;
    while samples[i] < t
      invariant i < |samples|
      invariant forall j :: 0 <= j < i ==> samples[j] < t
      decreases |samples| - i
    {
      i := i + 1;
    }
    if i > 0 {
      assert Near(samples, i - 1, c.interval + 2 * TOLERANCE);
    }
  }

  /** One attempt that takes `count` samples, `gap` seconds apart, the first two seconds after it starts. */
  function Regular(c: Campaign, count: nat, gap: int, start: int): Attempt {
    var epochs := seq(count, i requires 0 <= i < count => start + 2 + i * gap);
    var last := if count == 0 then start else epochs[count - 1];
    Attempt(true, true, start, epochs, Success(last, true, c.deadline, last))
  }

  /** It is accepted exactly when it starts within two seconds of the campaign, keeps the cadence and lasts. */
  lemma RegularExactly(c: Campaign, count: nat, gap: int, start: int)
    requires gap > 0 && count > 1
    ensures HistoryOk(c, [Regular(c, count, gap, start)]) <==>
            && c.start <= start <= c.start + 2 && gap <= c.interval + 2
            && c.deadline <= start + 2 + (count - 1) * gap
  {
    var a, limit := Regular(c, count, gap, start), c.interval + TOLERANCE;
    assert a.epochs[count - 1] == start + 2 + (count - 1) * gap;
    forall i, j | 0 <= i < j < |a.epochs|
      ensures a.epochs[i] < a.epochs[j]
    {
      MultiplesGrow(i, j, gap);
    }
    forall i: nat | i + 1 < |a.epochs|
      ensures Near(a.epochs, i, limit) <==> gap <= c.interval + 2
    {
      assert a.epochs[i + 1] - a.epochs[i] == (i + 1) * gap - i * gap == gap;
    }
    assert NoGap(a.epochs, limit) ==> Near(a.epochs, 0, limit);
    assert AttemptOk(c, [a], 0) <==> HistoryOk(c, [a]);
  }

  lemma MultiplesGrow(i: int, j: int, gap: int)
    requires i < j && gap > 0
    ensures i * gap < j * gap
  {
    assert (j - i) * gap > 0;
    assert (j - i) * gap == j * gap - i * gap;
  }

  /** An attempt that fails is picked up by one that starts no earlier and within the interval and two seconds. */
  lemma PickedUpExactly(c: Campaign, failed: Attempt, ended: int, next: Attempt)
    requires Sound(c, failed) && Continues(c, failed, None) && failed.terminal == Failure(ended, true)
    requires Last(failed.epochs) <= ended && Sound(c, next) && EndsWell(c, next, true) && next.terminal.Success?
    ensures HistoryOk(c, [failed, next]) <==>
            ended <= next.start && next.start - Last(failed.epochs) <= c.interval + 2
  {
    var history := [failed, next];
    assert AttemptOk(c, history, 0);
    assert AttemptOk(c, history, 1) <==> HistoryOk(c, history);
  }
}
