/** The soak result ledger checked by scripts/validate-collected-campaign.py. */
module SoakLedger {
  import opened Numerals
  import opened Options
  import opened Sequences
  import Residues

  const MAX_ATTEMPT := 9999

  datatype Status = Passed | Skipped | Failed | Interrupted | Unknown

  /** The directory scenarios/cycle-C/SCENARIO/attempts/attempt-A of one attempt. */
  datatype AttemptDir = AttemptDir(cycle: nat, scenario: string, attempt: nat)

  /**
   One row of scenario-results.tsv. `started` and `ended` are the epochs of the timestamps, absent when
   malformed; `artifact` is the attempt directory the row names, absent when not of the canonical form;
   `evidence` says that the directory, the log and matching start metadata are there.
   */
  datatype Row = Row(
    cycle: string, scenario: string, attempt: string, status: Status, exitStatus: string,
    started: Option<int>, ended: Option<int>, artifact: Option<AttemptDir>, evidence: bool)

  /** The authenticated plan: scenarios in order, the campaign window and the two allowances. */
  datatype Plan = Plan(scenarios: seq<string>, start: int, deadline: int, allowance: int, maxElapsed: int)

  datatype Summary = Summary(unresolvedFailure: bool, completeCycles: nat, lastEnded: Option<int>)

  // ------------------------------------------------------------------ where a row belongs

  predicate Settles(row: Row) {
    row.status == Passed || row.status == Skipped
  }

  predicate Fails(row: Row) {
    row.status == Failed || row.status == Interrupted
  }

  /** How many of the first `i` rows passed or were skipped. */
  function Settled(rows: seq<Row>, i: nat): nat
    requires i <= |rows|
  {
    if i == 0 then 0 else Settled(rows, i - 1) + if Settles(rows[i - 1]) then 1 else 0
  }

  /** How many rows just before row `i` failed or were interrupted. */
  function Retries(rows: seq<Row>, i: nat): nat
    requires i <= |rows|
  {
    if i == 0 || Settles(rows[i - 1]) then 0 else Retries(rows, i - 1) + 1
  }

  /** How many whole rounds of `n` there are in `k`, which is k div n. */
  function Rounds(n: nat, k: nat): nat
    requires n > 0
    decreases k
  {
    if k < n then 0 else Rounds(n, k - n) + 1
  }

  /** What is left after them, which is k mod n. */
  function Rest(n: nat, k: nat): (r: nat)
    requires n > 0
    ensures r < n
    decreases k
  {
    if k < n then k else Rest(n, k - n)
  }

  lemma {:induction false} RoundsAreQuotients(n: nat, k: nat)
    requires n > 0
    ensures Rounds(n, k) == k / n && Rest(n, k) == k % n
    decreases k
  {
    if k < n {
      Residues.QuotientAndRest(k, 0, n, k);
    } else {
      RoundsAreQuotients(n, k - n);
      Residues.QuotientAndRest(k, (k - n) / n + 1, n, (k - n) % n);
    }
  }

  lemma {:induction false} NextRound(n: nat, k: nat)
    requires n > 0
    ensures if Rest(n, k) + 1 == n then Rounds(n, k + 1) == Rounds(n, k) + 1 && Rest(n, k + 1) == 0
            else Rounds(n, k + 1) == Rounds(n, k) && Rest(n, k + 1) == Rest(n, k) + 1
    decreases k
  {
    if k >= n {
      NextRound(n, k - n);
    }
  }

  lemma {:induction false} RoundsDetermine(n: nat, k: nat, l: nat)
    requires n > 0 && Rounds(n, k) == Rounds(n, l) && Rest(n, k) == Rest(n, l)
    ensures k == l
    decreases k
  {
    if k >= n && l >= n {
      RoundsDetermine(n, k - n, l - n);
    }
  }

  /** Every place of every whole round is met. */
  lemma {:induction false} InsideRounds(n: nat, k: nat, round: nat, place: nat) returns (m: nat)
    requires place < n && round < Rounds(n, k)
    ensures m < k && Rounds(n, m) == round && Rest(n, m) == place
    decreases k
  {
    if round == 0 {
      m := place;
    } else {
      m := InsideRounds(n, k - n, round - 1, place);
      m := m + n;
    }
  }

  predicate StatusOk(row: Row) {
    && (Settles(row) || Fails(row))
    && Uint(row.exitStatus).Some? && Uint(row.exitStatus).value <= 255
    && (Settles(row) <==> row.exitStatus == "0")
  }

  predicate TimesOk(plan: Plan, row: Row, previousEnded: Option<int>) {
    && row.started.Some? && row.ended.Some?
    && row.started.value <= row.ended.value <= row.started.value + plan.maxElapsed
    && plan.start <= row.started.value < plan.deadline
    && row.ended.value <= plan.deadline + plan.allowance
    && (previousEnded.Some? ==> previousEnded.value <= row.started.value)
  }

  /** The row describes this attempt of this step. */
  predicate Names(plan: Plan, row: Row, cycle: nat, index: nat, attempt: nat) {
    && index < |plan.scenarios|
    && Uint(row.cycle) == Some(cycle)
    && row.scenario == plan.scenarios[index]
    && Uint(row.attempt) == Some(attempt)
    && row.artifact == Some(AttemptDir(cycle, row.scenario, attempt))
  }

  /** Its evidence is there, and it could have followed a row ended at `previousEnded`. */
  predicate Plausible(plan: Plan, row: Row, previousEnded: Option<int>) {
    row.evidence && StatusOk(row) && TimesOk(plan, row, previousEnded)
  }

  function EndedBefore(rows: seq<Row>, i: nat): Option<int>
    requires i <= |rows|
  {
    if i == 0 then None else rows[i - 1].ended
  }

  /**
   Row `i` belongs to the step after the settled ones: with k rows settled before it and n scenarios in
   the plan that is scenario k mod n of cycle k div n + 1, one attempt later than the failures just before it.
   */
  predicate RowOk(plan: Plan, rows: seq<Row>, i: nat)
    requires i < |rows|
  {
    InPlace(plan, rows[i], Settled(rows, i), Retries(rows, i)) && Plausible(plan, rows[i], EndedBefore(rows, i))
  }

  predicate InPlace(plan: Plan, row: Row, settled: nat, retries: nat) {
    var n := |plan.scenarios|;
    n > 0 && Names(plan, row, Rounds(n, settled) + 1, Rest(n, settled), retries + 1)
  }

  predicate LedgerOk(plan: Plan, rows: seq<Row>) {
    NoRepeats(plan.scenarios) && forall i :: 0 <= i < |rows| ==> RowOk(plan, rows, i)
  }

  function Dirs(rows: seq<Row>): set<AttemptDir> {
    set i | 0 <= i < |rows| && rows[i].artifact.Some? :: rows[i].artifact.value
  }

  /** The directory listing accepts attempt names of four digits; attempt 10000 would be written with five. */
  predicate NamesFit(actual: set<AttemptDir>) {
    forall d :: d in actual ==> d.attempt <= MAX_ATTEMPT
  }

  /** So the names that fit are those of numbers with at most four digits. */
  lemma FourDigits(actual: set<AttemptDir>)
    ensures NamesFit(actual) <==> forall d :: d in actual ==> |Decimal(d.attempt)| <= 4
  {
    forall d | d in actual
      ensures |Decimal(d.attempt)| <= 4 <==> d.attempt <= MAX_ATTEMPT
    {
      var n := d.attempt;
      DigitCount(n);
      DigitCount(n / 10);
      DigitCount(n / 100);
      DigitCount(n / 1000);
      assert n / 10 / 10 == n / 100 && n / 100 / 10 == n / 1000 && n / 1000 / 10 == n / 10000;
    }
  }

  // ------------------------------------------------------------------ the validator's loop

  method CheckRow(plan: Plan, scenarios: set<string>, row: Row, expectedCycle: nat, expectedIndex: nat,
                  expectedAttempt: nat, previousEnded: Option<int>) returns (ok: bool)
    requires scenarios == set s | s in plan.scenarios
    requires |plan.scenarios| > 0 ==> expectedIndex < |plan.scenarios|
    ensures ok <==>
            Names(plan, row, expectedCycle, expectedIndex, expectedAttempt) && Plausible(plan, row, previousEnded)
  {
    if Uint(row.cycle) != Some(expectedCycle) || row.scenario !in scenarios {
      return false;
    }
    if row.scenario != plan.scenarios[expectedIndex] {
      return false;
    }
    if Uint(row.attempt) != Some(expectedAttempt) {
      return false;
    }
    if row.status == Unknown || Uint(row.exitStatus).None? || Uint(row.exitStatus).value > 255 {
      return false;
    }
    if Settles(row) && row.exitStatus != "0" {
      return false;
    }
    if Fails(row) && row.exitStatus == "0" {
      return false;
    }
    if row.started.None? || row.ended.None? {
      return false;
    }
    var started, ended := row.started.value, row.ended.value;
    if ended < started || ended - started > plan.maxElapsed {
      return false;
    }
    if !(plan.start <= started < plan.deadline) || ended > plan.deadline + plan.allowance {
      return false;
    }
    if previousEnded.Some? && started < previousEnded.value {
      return false;
    }
    return row.artifact == Some(AttemptDir(expectedCycle, row.scenario, expectedAttempt)) && row.evidence;
  }

  /** What the loop's counters mean. */
  ghost predicate Counted(n: nat, settled: nat, cycles: nat, index: nat) {
    if n == 0 then cycles == 0 && index == 0 else cycles == Rounds(n, settled) && index == Rest(n, settled)
  }

  /** The result: every n settled rows make a complete cycle. */
  ghost predicate Summarises(plan: Plan, rows: seq<Row>, s: Summary) {
    && (s.unresolvedFailure <==> |rows| > 0 && Fails(rows[|rows| - 1]))
    && s.completeCycles == (if |plan.scenarios| == 0 then 0 else Rounds(|plan.scenarios|, Settled(rows, |rows|)))
    && s.lastEnded == EndedBefore(rows, |rows|)
  }

  method VerifySoakResults(plan: Plan, rows: seq<Row>, actual: set<AttemptDir>) returns (r: Option<Summary>)
    ensures r.Some? <==> LedgerOk(plan, rows) && actual == Dirs(rows) && NamesFit(actual)
    ensures r.Some? ==> Summarises(plan, rows, r.value)
  {
    var scenarios := set s | s in plan.scenarios;
    SetSize(plan.scenarios);
    if |scenarios| != |plan.scenarios| {
      return None;
    }
    var n := |plan.scenarios|;
    var expectedCycle: nat, expectedIndex: nat, expectedAttempt: nat := 1, 0, 1;
    var unresolvedFailure, completeCycles: nat := false, 0;
    var ledgerAttempts: set<AttemptDir> := {};
    var previousEnded: Option<int> := None;
    for i := 0 to |rows|
      invariant forall j :: 0 <= j < i ==> RowOk(plan, rows, j)
      invariant Counted(n, Settled(rows, i), completeCycles, expectedIndex)
      invariant expectedCycle == completeCycles + 1
      invariant expectedAttempt == Retries(rows, i) + 1
      invariant unresolvedFailure <==> i > 0 && Fails(rows[i - 1])
      invariant ledgerAttempts == Dirs(rows[..i])
      invariant previousEnded == EndedBefore(rows, i)
    {
      var row := rows[i];
      CountedMeans(plan, row, Settled(rows, i), Retries(rows, i), completeCycles, expectedIndex);
      var ok := CheckRow(plan, scenarios, row, expectedCycle, expectedIndex, expectedAttempt, previousEnded);
      assert ok <==> RowOk(plan, rows, i);
      if !ok {
        return None;
      }
      DirsGrow(rows, i);
      previousEnded := row.ended;
      ledgerAttempts := ledgerAttempts + {row.artifact.value};
      unresolvedFailure := Fails(row);
      expectedAttempt := expectedAttempt + 1;
      CountedGrows(n, Settled(rows, i), completeCycles, expectedIndex);
      if Settles(row) {
        unresolvedFailure := false;
        expectedAttempt := 1;
        expectedIndex := expectedIndex + 1;
        if expectedIndex == n {
          completeCycles := completeCycles + 1;
          expectedCycle := expectedCycle + 1;
          expectedIndex := 0;
        }
      }
    }
    assert rows[..|rows|] == rows;
    if !NamesFit(actual) || actual != ledgerAttempts {
      return None;
    }
    return Some(Summary(unresolvedFailure, completeCycles, previousEnded));
  }

  lemma CountedMeans(plan: Plan, row: Row, settled: nat, retries: nat, cycles: nat, index: nat)
    requires Counted(|plan.scenarios|, settled, cycles, index)
    ensures InPlace(plan, row, settled, retries) <==> Names(plan, row, cycles + 1, index, retries + 1)
  {
  }

  lemma CountedGrows(n: nat, settled: nat, cycles: nat, index: nat)
    requires n > 0 && Counted(n, settled, cycles, index)
    ensures if index + 1 == n then Counted(n, settled + 1, cycles + 1, 0)
            else Counted(n, settled + 1, cycles, index + 1)
  {
    NextRound(n, settled);
  }

  lemma {:induction false} SetSize(s: seq<string>)
    ensures |(set x | x in s)| == |s| <==> NoRepeats(s)
    ensures |(set x | x in s)| <= |s|
  {
    if |s| > 0 {
      var n := |s| - 1;
      SetSize(s[..n]);
      NoRepeatsLast(s);
      assert (set x | x in s) == (set x | x in s[..n]) + {s[n]};
    }
  }

  lemma DirsGrow(rows: seq<Row>, i: nat)
    requires i < |rows| && rows[i].artifact.Some?
    ensures Dirs(rows[..i + 1]) == Dirs(rows[..i]) + {rows[i].artifact.value}
  {
    var more, less := rows[..i + 1], rows[..i];
    forall d | d in Dirs(more)
      ensures d in Dirs(less) + {rows[i].artifact.value}
    {
      var j :| 0 <= j < |more| && more[j].artifact == Some(d);
      if j < i {
        assert less[j].artifact == Some(d);
      }
    }
    forall d | d in Dirs(less)
      ensures d in Dirs(more)
    {
      var j :| 0 <= j < |less| && less[j].artifact == Some(d);
      assert more[j].artifact == Some(d);
    }
    assert more[i].artifact == rows[i].artifact;
  }

  // ------------------------------------------------------------------ what an accepted ledger says

  lemma {:induction false} SettledGrows(rows: seq<Row>, i: nat, j: nat)
    requires i <= j <= |rows|
    ensures Settled(rows, i) <= Settled(rows, j)
    ensures i < j && Settles(rows[i]) ==> Settled(rows, i) < Settled(rows, j)
    decreases j
  {
    if i < j {
      SettledGrows(rows, i, j - 1);
    }
  }

  /** Rows of one step, with nothing settled between them, count their attempts up. */
  lemma {:induction false} RetriesCount(rows: seq<Row>, i: nat, j: nat)
    requires i <= j <= |rows| && Settled(rows, i) == Settled(rows, j)
    ensures Retries(rows, j) == Retries(rows, i) + (j - i)
    decreases j
  {
    if i < j {
      SettledGrows(rows, i, j - 1);
      RetriesCount(rows, i, j - 1);
    }
  }

  /**
   The attempts of a step: the rows just before row `i` in the same step are attempts 1, 2, ... of the same
   cycle and scenario, and each of them failed or was interrupted.
   */
  lemma {:induction false} AttemptsOfStep(plan: Plan, rows: seq<Row>, i: nat, back: nat)
    requires LedgerOk(plan, rows) && i < |rows| && back <= Retries(rows, i)
    ensures back <= i
    ensures Uint(rows[i - back].attempt) == Some(Retries(rows, i) + 1 - back)
    ensures rows[i - back].scenario == rows[i].scenario && Uint(rows[i - back].cycle) == Uint(rows[i].cycle)
    ensures back > 0 ==> Fails(rows[i - back])
    decreases back
  {
    if back > 0 {
      AttemptsOfStep(plan, rows, i, back - 1);
      var j := i - (back - 1);
      assert RowOk(plan, rows, j);
      assert Retries(rows, j) == Retries(rows, i) - (back - 1);
      assert RowOk(plan, rows, j - 1);
    } else {
      assert RowOk(plan, rows, i);
    }
  }

  /** So no step of an accepted ledger failed more than 9998 times before it settled or the ledger ended. */
  lemma {:induction false} FewRetries(plan: Plan, rows: seq<Row>, i: nat)
    requires LedgerOk(plan, rows) && NamesFit(Dirs(rows)) && i < |rows|
    ensures Retries(rows, i) <= 9998
  {
    assert RowOk(plan, rows, i);
    assert rows[i].artifact.value in Dirs(rows);
  }

  lemma {:induction false} SameStep(plan: Plan, k: nat, l: nat)
    requires NoRepeats(plan.scenarios) && |plan.scenarios| > 0
    requires Rounds(|plan.scenarios|, k) == Rounds(|plan.scenarios|, l)
    requires plan.scenarios[Rest(|plan.scenarios|, k)] == plan.scenarios[Rest(|plan.scenarios|, l)]
    ensures k == l
  {
    RoundsDetermine(|plan.scenarios|, k, l);
  }

  /** No two rows describe the same attempt. */
  lemma RowsDistinct(plan: Plan, rows: seq<Row>, i: nat, j: nat)
    requires LedgerOk(plan, rows) && i < j < |rows|
    ensures rows[i].artifact != rows[j].artifact
  {
    assert RowOk(plan, rows, i) && RowOk(plan, rows, j);
    if rows[i].artifact == rows[j].artifact {
      SameStep(plan, Settled(rows, i), Settled(rows, j));
      RetriesCount(rows, i, j);
      assert false;
    }
  }

  lemma {:induction false} DirsSize(plan: Plan, rows: seq<Row>, i: nat)
    requires LedgerOk(plan, rows) && i <= |rows|
    ensures |Dirs(rows[..i])| == i
  {
    if i > 0 {
      DirsSize(plan, rows, i - 1);
      assert RowOk(plan, rows, i - 1);
      DirsGrow(rows, i - 1);
      var less := rows[..i - 1];
      forall j | 0 <= j < |less|
        ensures less[j].artifact != rows[i - 1].artifact
      {
        RowsDistinct(plan, rows, j, i - 1);
      }
    }
  }

  /** Rows and attempt directories correspond one to one. */
  lemma OneDirPerRow(plan: Plan, rows: seq<Row>, actual: set<AttemptDir>)
    requires LedgerOk(plan, rows) && actual == Dirs(rows)
    ensures |actual| == |rows|
    ensures forall d :: d in actual ==> exists i :: 0 <= i < |rows| && rows[i].artifact == Some(d)
    ensures forall i, j :: 0 <= i < j < |rows| ==> rows[i].artifact != rows[j].artifact
  {
    assert rows[..|rows|] == rows;
    DirsSize(plan, rows, |rows|);
    forall i, j | 0 <= i < j < |rows|
      ensures rows[i].artifact != rows[j].artifact
    {
      RowsDistinct(plan, rows, i, j);
    }
  }

  /** The row that settles the k-th step. */
  lemma {:induction false} SettlingRow(rows: seq<Row>, m: nat, k: nat) returns (i: nat)
    requires m <= |rows| && k < Settled(rows, m)
    ensures i < m && Settled(rows, i) == k && Settles(rows[i])
  {
    if Settled(rows, m - 1) > k {
      i := SettlingRow(rows, m - 1, k);
    } else {
      i := m - 1;
    }
  }

  /** Row `i` settled this scenario in this cycle, counted from zero. */
  predicate SettledStep(plan: Plan, rows: seq<Row>, i: nat, cycle: nat, index: nat)
    requires i < |rows| && index < |plan.scenarios|
  {
    Settles(rows[i]) && Uint(rows[i].cycle) == Some(cycle + 1) && rows[i].scenario == plan.scenarios[index]
  }

  lemma SettledStepUnique(plan: Plan, rows: seq<Row>, i: nat, j: nat, cycle: nat, index: nat)
    requires LedgerOk(plan, rows) && i < j < |rows| && index < |plan.scenarios|
    requires SettledStep(plan, rows, i, cycle, index)
    ensures !SettledStep(plan, rows, j, cycle, index)
  {
    assert RowOk(plan, rows, i) && RowOk(plan, rows, j);
    SettledGrows(rows, i, j);
    if SettledStep(plan, rows, j, cycle, index) {
      SameStep(plan, Settled(rows, i), Settled(rows, j));
      assert false;
    }
  }

  lemma FindSettledStep(plan: Plan, rows: seq<Row>, k: nat) returns (i: nat)
    requires LedgerOk(plan, rows) && |plan.scenarios| > 0 && k < Settled(rows, |rows|)
    ensures i < |rows| && SettledStep(plan, rows, i, Rounds(|plan.scenarios|, k), Rest(|plan.scenarios|, k))
  {
    i := SettlingRow(rows, |rows|, k);
    assert RowOk(plan, rows, i);
  }

  /** Every scenario of every complete cycle has exactly one passed or skipped row. */
  lemma CompleteCycles(plan: Plan, rows: seq<Row>, s: Summary, cycle: nat, index: nat) returns (i: nat)
    requires LedgerOk(plan, rows) && Summarises(plan, rows, s)
    requires cycle < s.completeCycles && index < |plan.scenarios|
    ensures i < |rows| && SettledStep(plan, rows, i, cycle, index)
    ensures forall j :: 0 <= j < |rows| && j != i ==> !SettledStep(plan, rows, j, cycle, index)
  {
    var k := InsideRounds(|plan.scenarios|, Settled(rows, |rows|), cycle, index);
    i := FindSettledStep(plan, rows, k);
    forall j | 0 <= j < |rows| && j != i
      ensures !SettledStep(plan, rows, j, cycle, index)
    {
      if i < j {
        SettledStepUnique(plan, rows, i, j, cycle, index);
      } else if SettledStep(plan, rows, j, cycle, index) {
        SettledStepUnique(plan, rows, j, i, cycle, index);
      }
    }
  }

  /** Seconds spent in the first `i` rows. */
  function RunTime(rows: seq<Row>, i: nat): int
    requires i <= |rows| && forall j :: 0 <= j < i ==> rows[j].started.Some? && rows[j].ended.Some?
  {
    if i == 0 then 0 else RunTime(rows, i - 1) + rows[i - 1].ended.value - rows[i - 1].started.value
  }

  lemma {:induction false} RunTimeBound(plan: Plan, rows: seq<Row>, i: nat)
    requires LedgerOk(plan, rows) && 0 < i <= |rows|
    ensures forall j :: 0 <= j < i ==> rows[j].started.Some? && rows[j].ended.Some?
    ensures RunTime(rows, i) <= rows[i - 1].ended.value - plan.start
  {
    assert forall j :: 0 <= j < i ==> RowOk(plan, rows, j) ==> rows[j].started.Some?;
    assert RowOk(plan, rows, i - 1);
    if i > 1 {
      RunTimeBound(plan, rows, i - 1);
      assert RowOk(plan, rows, i - 2);
    }
  }

  /** Runs do not overlap, so together they take no longer than the campaign window and its allowance. */
  lemma {:induction false} TotalRunTime(plan: Plan, rows: seq<Row>)
    requires LedgerOk(plan, rows) && |rows| > 0
    ensures forall j :: 0 <= j < |rows| ==> rows[j].started.Some? && rows[j].ended.Some?
    ensures RunTime(rows, |rows|) <= plan.deadline + plan.allowance - plan.start
    ensures forall i, j :: 0 <= i < j < |rows| ==> rows[i].ended.value <= rows[j].started.value
  {
    RunTimeBound(plan, rows, |rows|);
    assert RowOk(plan, rows, |rows| - 1);
    forall i, j | 0 <= i < j < |rows|
      ensures rows[i].ended.value <= rows[j].started.value
    {
      InTimeOrder(plan, rows, i, j);
    }
  }

  lemma {:induction false} InTimeOrder(plan: Plan, rows: seq<Row>, i: nat, j: nat)
    requires LedgerOk(plan, rows) && i < j < |rows|
    ensures rows[i].ended.Some? && rows[j].started.Some?
    ensures rows[i].ended.value <= rows[j].started.value
    decreases j
  {
    assert RowOk(plan, rows, j) && RowOk(plan, rows, j - 1);
    if i < j - 1 {
      InTimeOrder(plan, rows, i, j - 1);
    }
  }

  // ------------------------------------------------------------------ exit statuses

  /**
   Failing rows are told apart from exit status 0 by text alone: a failing row is accepted with the value
   zero exactly when its exit status is two or more zeros.
   */
  lemma FailureWithZeroStatus(row: Row)
    requires Fails(row)
    ensures StatusOk(row) && Uint(row.exitStatus) == Some(0) <==>
            |row.exitStatus| >= 2 && forall i :: 0 <= i < |row.exitStatus| ==> row.exitStatus[i] == '0'
  {
    DigitsExactly(row.exitStatus);
    if |row.exitStatus| == 1 && row.exitStatus[0] == '0' {
      assert row.exitStatus == "0";
    }
  }

  /** A whole ledger that is accepted though its one row failed with exit status zero. */
  lemma FailureWithZeroStatusAccepted()
    ensures var plan, row := Plan(["s"], 0, 10, 0, 10),
                             Row("1", "s", "1", Failed, "00", Some(0), Some(1), Some(AttemptDir(1, "s", 1)), true);
            LedgerOk(plan, [row]) && NamesFit(Dirs([row])) && Fails(row) && Uint(row.exitStatus) == Some(0)
  {
    var plan, row := Plan(["s"], 0, 10, 0, 10),
                     Row("1", "s", "1", Failed, "00", Some(0), Some(1), Some(AttemptDir(1, "s", 1)), true);
    DigitsExactly("00");
    assert Digits("1") == Some(1) by {
      assert "1"[..0] == "" && Digits("") == Some(0);
    }
    assert Rounds(1, 0) == 0 && Rest(1, 0) == 0;
    assert RowOk(plan, [row], 0);
  }

  // ------------------------------------------------------------------ the cycle under way

  lemma {:induction false} RoundsGrow(n: nat, k: nat, l: nat)
    requires n > 0 && k <= l
    ensures Rounds(n, k) <= Rounds(n, l)
    ensures k < l && Rounds(n, k) == Rounds(n, l) ==> Rest(n, k) < Rest(n, l)
    decreases l
  {
    if k >= n {
      RoundsGrow(n, k - n, l - n);
    } else if l >= n {
      RoundsGrow(n, 0, l - n);
    }
  }

  /** The places of the round under way that are behind it. */
  lemma {:induction false} InLastRound(n: nat, k: nat, place: nat) returns (m: nat)
    requires n > 0 && place < Rest(n, k)
    ensures m < k && Rounds(n, m) == Rounds(n, k) && Rest(n, m) == place
    decreases k
  {
    if k < n {
      m := place;
    } else {
      m := InLastRound(n, k - n, place);
      m := m + n;
    }
  }

  /** The passed and skipped rows are those of the complete cycles and `index` more, fewer than a cycle. */
  lemma SettledCount(plan: Plan, rows: seq<Row>, s: Summary) returns (index: nat)
    requires |plan.scenarios| > 0 && Summarises(plan, rows, s)
    ensures index < |plan.scenarios| && |plan.scenarios| * s.completeCycles + index == Settled(rows, |rows|)
    ensures index == Rest(|plan.scenarios|, Settled(rows, |rows|))
  {
    index := Rest(|plan.scenarios|, Settled(rows, |rows|));
    RoundsAreQuotients(|plan.scenarios|, Settled(rows, |rows|));
  }

  /** Some row settled this scenario in this cycle. */
  ghost predicate IsSettled(plan: Plan, rows: seq<Row>, cycle: nat, j: nat)
    requires j < |plan.scenarios|
  {
    exists i :: 0 <= i < |rows| && SettledStep(plan, rows, i, cycle, j)
  }

  /**
   At most one cycle is under way: no row is of a later one, and its settled scenarios are exactly the first `index`
   of the plan.
   */
  lemma {:induction false} OnePartialCycle(plan: Plan, rows: seq<Row>, s: Summary, index: nat)
    requires LedgerOk(plan, rows) && |plan.scenarios| > 0 && Summarises(plan, rows, s)
    requires index == Rest(|plan.scenarios|, Settled(rows, |rows|))
    ensures forall i :: 0 <= i < |rows| ==>
              Uint(rows[i].cycle).Some? && Uint(rows[i].cycle).value <= s.completeCycles + 1
    ensures forall j :: 0 <= j < |plan.scenarios| ==> (IsSettled(plan, rows, s.completeCycles, j) <==> j < index)
  {
    var n, all := |plan.scenarios|, Settled(rows, |rows|);
    forall i | 0 <= i < |rows|
      ensures Uint(rows[i].cycle).Some? && Uint(rows[i].cycle).value <= s.completeCycles + 1
    {
      assert RowOk(plan, rows, i);
      SettledGrows(rows, i, |rows|);
      RoundsGrow(n, Settled(rows, i), all);
    }
    forall j | 0 <= j < n
      ensures IsSettled(plan, rows, s.completeCycles, j) <==> j < index
    {
      if j < index {
        var k := InLastRound(n, all, j);
        var i := FindSettledStep(plan, rows, k);
        assert SettledStep(plan, rows, i, s.completeCycles, j);
      }
      if IsSettled(plan, rows, s.completeCycles, j) {
        var i :| 0 <= i < |rows| && SettledStep(plan, rows, i, s.completeCycles, j);
        LastRoundOnly(plan, rows, i, s.completeCycles, j);
      }
    }
  }

  lemma {:induction false} LastRoundOnly(plan: Plan, rows: seq<Row>, i: nat, cycle: nat, j: nat)
    requires LedgerOk(plan, rows) && i < |rows| && j < |plan.scenarios|
    requires SettledStep(plan, rows, i, cycle, j) && cycle == Rounds(|plan.scenarios|, Settled(rows, |rows|))
    ensures j < Rest(|plan.scenarios|, Settled(rows, |rows|))
  {
    assert RowOk(plan, rows, i);
    SettledGrows(rows, i, |rows|);
    RoundsGrow(|plan.scenarios|, Settled(rows, i), Settled(rows, |rows|));
  }

  // ------------------------------------------------------------------ exactly the ledgers a campaign writes

  /** Where a campaign is: the cycle, the scenario and the attempt that come next. */
  datatype Progress = Progress(cycle: nat, index: nat, attempt: nat)

  /** A settled attempt moves on to the next scenario, and from the last one to the next cycle; any other is retried. */
  function Advance(n: nat, p: Progress, row: Row): Progress {
    if row.status == Failed || row.status == Interrupted then p.(attempt := p.attempt + 1)
    else if p.index + 1 == n then Progress(p.cycle + 1, 0, 1)
    else Progress(p.cycle, p.index + 1, 1)
  }

  function ProgressAt(n: nat, rows: seq<Row>, i: nat): Progress
    requires i <= |rows|
  {
    if i == 0 then Progress(1, 0, 1) else Advance(n, ProgressAt(n, rows, i - 1), rows[i - 1])
  }

  /** What a campaign at this place writes: numbers as digits, exit status 0 exactly for a settled attempt. */
  predicate Writes(plan: Plan, p: Progress, row: Row) {
    && p.index < |plan.scenarios| && row.scenario == plan.scenarios[p.index]
    && Uint(row.cycle) == Some(p.cycle) && Uint(row.attempt) == Some(p.attempt)
    && row.artifact == Some(AttemptDir(p.cycle, row.scenario, p.attempt)) && row.evidence
    && row.status != Unknown
    && (row.exitStatus == "0" <==> row.status == Passed || row.status == Skipped)
    && Uint(row.exitStatus).Some? && Uint(row.exitStatus).value < 256
  }

  /** When it may have run: inside the window, within its bound, and not before the row in front of it ended. */
  predicate RunsAt(plan: Plan, row: Row, previous: Option<Row>) {
    && row.started.Some? && row.ended.Some?
    && plan.start <= row.started.value < plan.deadline && row.started.value <= row.ended.value
    && row.ended.value - row.started.value <= plan.maxElapsed && row.ended.value - plan.deadline <= plan.allowance
    && (previous.Some? && previous.value.ended.Some? ==> previous.value.ended.value <= row.started.value)
  }

  ghost predicate WrittenLedger(plan: Plan, rows: seq<Row>) {
    && NoRepeats(plan.scenarios)
    && forall i :: 0 <= i < |rows| ==>
         && Writes(plan, ProgressAt(|plan.scenarios|, rows, i), rows[i])
         && RunsAt(plan, rows[i], if i == 0 then None else Some(rows[i - 1]))
  }

  lemma {:induction false} ProgressCounts(n: nat, rows: seq<Row>, i: nat)
    requires n > 0 && i <= |rows| && forall j :: 0 <= j < i ==> rows[j].status != Unknown
    ensures ProgressAt(n, rows, i) ==
            Progress(Rounds(n, Settled(rows, i)) + 1, Rest(n, Settled(rows, i)), Retries(rows, i) + 1)
  {
    if i > 0 {
      ProgressCounts(n, rows, i - 1);
      NextRound(n, Settled(rows, i - 1));
    }
  }

  lemma RowExactly(plan: Plan, rows: seq<Row>, i: nat)
    requires i < |rows| && |plan.scenarios| > 0 && forall j :: 0 <= j < i ==> rows[j].status != Unknown
    ensures RowOk(plan, rows, i) <==>
            && Writes(plan, ProgressAt(|plan.scenarios|, rows, i), rows[i])
            && RunsAt(plan, rows[i], if i == 0 then None else Some(rows[i - 1]))
  {
    ProgressCounts(|plan.scenarios|, rows, i);
  }

  /** The validator accepts exactly the ledgers that a campaign writes, whatever its attempts come to. */
  lemma AcceptedExactly(plan: Plan, rows: seq<Row>)
    ensures LedgerOk(plan, rows) <==> WrittenLedger(plan, rows)
  {
    if LedgerOk(plan, rows) {
      forall i | 0 <= i < |rows|
        ensures Writes(plan, ProgressAt(|plan.scenarios|, rows, i), rows[i])
        ensures RunsAt(plan, rows[i], if i == 0 then None else Some(rows[i - 1]))
      {
        assert RowOk(plan, rows, i);
        forall j | 0 <= j < i
          ensures rows[j].status != Unknown
        {
          assert RowOk(plan, rows, j);
        }
        RowExactly(plan, rows, i);
      }
    }
    if WrittenLedger(plan, rows) {
      forall i | 0 <= i < |rows|
        ensures RowOk(plan, rows, i)
      {
        assert Writes(plan, ProgressAt(|plan.scenarios|, rows, i), rows[i]);
        forall j | 0 <= j < i
          ensures rows[j].status != Unknown
        {
          assert Writes(plan, ProgressAt(|plan.scenarios|, rows, j), rows[j]);
        }
        RowExactly(plan, rows, i);
      }
    }
  }
}
