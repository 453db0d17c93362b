/** Binding process samples to host samples, from scripts/validate-collected-campaign.py. */
module ProcessDetails {

  /** Timestamp and epoch text: the identity of one host sample. */
  datatype Key = Key(timestamp: string, epoch: string)

  /**
   One host sample. The three aggregate columns hold the value of their text; text that is not the canonical
   rendering of a value is a negative number here. `cpu` counts hundredths.
   */
  datatype Host = Host(key: Key, activeUnits: int, processes: int, cpu: int, rss: int)

  /** One process sample; `wellFormed` covers the column patterns and the timestamp against its epoch. */
  datatype Process = Process(wellFormed: bool, key: Key, pid: string, cpu: real, rss: nat)

  // ------------------------------------------------------------------ groups and sums

  /** The process rows of one host sample, in order. */
  function Group(processes: seq<Process>, key: Key): seq<Process> {
    if |processes| == 0 then []
    else
      var init, last := Group(processes[..|processes| - 1], key), processes[|processes| - 1];
      if last.key == key then init + [last] else init
  }

  function CpuSum(processes: seq<Process>): real {
    if |processes| == 0 then 0.0 else CpuSum(processes[..|processes| - 1]) + processes[|processes| - 1].cpu
  }

  function RssSum(processes: seq<Process>): nat {
    if |processes| == 0 then 0 else RssSum(processes[..|processes| - 1]) + processes[|processes| - 1].rss
  }

  /** ROUND_HALF_UP to hundredths, for the non-negative sums that occur here. */
  function Hundredths(x: real): int {
    (x * 100.0 + 0.5).Floor
  }

  predicate Aggregates(host: Host, group: seq<Process>) {
    host.processes == |group| && host.cpu == Hundredths(CpuSum(group)) && host.rss == RssSum(group)
  }

  // ------------------------------------------------------------------ what is accepted

  predicate KeysDistinct(hosts: seq<Host>) {
    forall i, j :: 0 <= i < j < |hosts| ==> hosts[i].key != hosts[j].key
  }

  /** The place of the host sample with this key, or past the end. */
  function Position(hosts: seq<Host>, key: Key): (r: nat)
    ensures r <= |hosts|
    ensures r < |hosts| ==> hosts[r].key == key
    ensures forall k :: 0 <= k < r ==> hosts[k].key != key
  {
    if |hosts| == 0 then 0 else if hosts[0].key == key then 0 else 1 + Position(hosts[1..], key)
  }

  predicate PidsDistinct(processes: seq<Process>) {
    forall i, j :: 0 <= i < j < |processes| ==>
      !(processes[i].key == processes[j].key && processes[i].pid == processes[j].pid)
  }

  /** Process rows come in the order of their host samples. */
  predicate InHostOrder(hosts: seq<Host>, processes: seq<Process>) {
    forall i, j :: 0 <= i < j < |processes| ==> Position(hosts, processes[i].key) <= Position(hosts, processes[j].key)
  }

  predicate HostsOk(hosts: seq<Host>, unitCount: int) {
    KeysDistinct(hosts) && forall k :: 0 <= k < |hosts| ==> hosts[k].activeUnits <= unitCount
  }

  predicate ProcessesOk(hosts: seq<Host>, processes: seq<Process>) {
    && RowsOk(hosts, processes)
    && PidsDistinct(processes)
    && InHostOrder(hosts, processes)
  }

  predicate DetailsOk(hosts: seq<Host>, processes: seq<Process>, unitCount: int) {
    && HostsOk(hosts, unitCount)
    && ProcessesOk(hosts, processes)
    && forall k :: 0 <= k < |hosts| ==> Aggregates(hosts[k], Group(processes, hosts[k].key))
  }

  // ------------------------------------------------------------------ the validator

  /** The dictionary of host positions. */
  ghost predicate Indexes(hosts: seq<Host>, positions: map<Key, nat>) {
    && (forall key :: key in positions <==> Position(hosts, key) < |hosts|)
    && (forall key :: key in positions ==> positions[key] == Position(hosts, key))
  }

  method IndexHosts(hosts: seq<Host>, unitCount: int) returns (ok: bool, positions: map<Key, nat>)
    ensures ok <==> HostsOk(hosts, unitCount)
    ensures ok ==> Indexes(hosts, positions)
  {
    positions := map[];
    for index := 0 to |hosts|
      invariant KeysDistinct(hosts[..index])
      invariant Indexes(hosts[..index], positions)
      invariant forall k :: 0 <= k < index ==> hosts[k].activeUnits <= unitCount
    {
      var key := hosts[index].key;
      PositionGrows(hosts, index);
      if key in positions {
        ghost var k := Position(hosts[..index], key);
        assert hosts[k].key == hosts[index].key;
        return false, positions;
      }
      assert KeysDistinct(hosts[..index + 1]);
      positions := positions[key := index];
      if hosts[index].activeUnits > unitCount {
        return false, positions;
      }
    }
    assert hosts[..|hosts|] == hosts;
    return true, positions;
  }

  lemma PositionGrows(hosts: seq<Host>, n: nat)
    requires n < |hosts|
    ensures forall key :: Position(hosts[..n], key) < n ==> Position(hosts[..n + 1], key) == Position(hosts[..n], key)
    ensures forall key :: Position(hosts[..n], key) == n ==>
              Position(hosts[..n + 1], key) == if key == hosts[n].key then n else n + 1
  {
    var less, more := hosts[..n], hosts[..n + 1];
    forall key
      ensures Position(less, key) < n ==> Position(more, key) == Position(less, key)
      ensures Position(less, key) == n ==> Position(more, key) == if key == hosts[n].key then n else n + 1
    {
      assert forall k :: 0 <= k < n ==> less[k] == more[k];
      assert more[n] == hosts[n];
      var p, q := Position(less, key), Position(more, key);
      assert p < n ==> more[p].key == key;
      assert q < n ==> less[q].key == key;
    }
  }

  ghost predicate GroupsGathered(hosts: seq<Host>, done: seq<Process>, details: map<Key, seq<Process>>) {
    && (forall key :: key in details <==> Position(hosts, key) < |hosts|)
    && (forall key :: key in details ==> details[key] == Group(done, key))
  }

  lemma GroupsGatherOne(hosts: seq<Host>, done: seq<Process>, p: Process, details: map<Key, seq<Process>>)
    requires GroupsGathered(hosts, done, details) && p.key in details
    ensures GroupsGathered(hosts, done + [p], details[p.key := details[p.key] + [p]])
  {
    var more := done + [p];
    assert more[..|done|] == done;
    forall key
      ensures Group(more, key) == if key == p.key then Group(done, key) + [p] else Group(done, key)
    {
    }
  }

  ghost predicate PidsGathered(done: seq<Process>, pids: set<(Key, string)>) {
    && PidsDistinct(done)
    && (forall i :: 0 <= i < |done| ==> (done[i].key, done[i].pid) in pids)
    && (forall pid :: pid in pids ==> exists i :: 0 <= i < |done| && (done[i].key, done[i].pid) == pid)
  }

  lemma PidsGatherOne(done: seq<Process>, p: Process, pids: set<(Key, string)>)
    requires PidsGathered(done, pids)
    requires (p.key, p.pid) !in pids
    ensures PidsGathered(done + [p], pids + {(p.key, p.pid)})
  {
    var more, all := done + [p], pids + {(p.key, p.pid)};
    assert forall i :: 0 <= i < |done| ==> more[i] == done[i];
    forall pid | pid in all
      ensures exists i :: 0 <= i < |more| && (more[i].key, more[i].pid) == pid
    {
      if pid in pids {
        var i :| 0 <= i < |done| && (done[i].key, done[i].pid) == pid;
        assert (more[i].key, more[i].pid) == pid;
      } else {
        assert (more[|done|].key, more[|done|].pid) == pid;
      }
    }
  }

  /** The place of each row's host sample. */
  ghost function Places(hosts: seq<Host>, done: seq<Process>): seq<nat> {
    seq(|done|, i requires 0 <= i < |done| => Position(hosts, done[i].key))
  }

  predicate RowsOk(hosts: seq<Host>, done: seq<Process>) {
    forall i :: 0 <= i < |done| ==> done[i].wellFormed && Position(hosts, done[i].key) < |hosts|
  }

  /** What the loop over process rows has gathered: groups, places and process identities. */
  ghost predicate Gathered(hosts: seq<Host>, done: seq<Process>, details: map<Key, seq<Process>>, order: seq<nat>,
                           pids: set<(Key, string)>) {
    && RowsOk(hosts, done)
    && GroupsGathered(hosts, done, details)
    && PidsGathered(done, pids)
    && order == Places(hosts, done)
  }

  lemma {:induction false} GatherOne(hosts: seq<Host>, processes: seq<Process>, i: nat, details: map<Key, seq<Process>>,
                                     order: seq<nat>, pids: set<(Key, string)>)
    requires i < |processes| && Gathered(hosts, processes[..i], details, order, pids)
    requires processes[i].wellFormed && Position(hosts, processes[i].key) < |hosts|
    requires (processes[i].key, processes[i].pid) !in pids
    ensures var p := processes[i];
            Gathered(hosts, processes[..i + 1], details[p.key := details[p.key] + [p]],
                     order + [Position(hosts, p.key)], pids + {(p.key, p.pid)})
  {
    var p, done := processes[i], processes[..i];
    assert processes[..i + 1] == done + [p];
    RowsOkLast(hosts, done, p);
    GroupsGatherOne(hosts, done, p, details);
    PidsGatherOne(done, p, pids);
    PlacesLast(hosts, done, p);
  }

  lemma {:induction false} PlacesLast(hosts: seq<Host>, done: seq<Process>, p: Process)
    ensures Places(hosts, done + [p]) == Places(hosts, done) + [Position(hosts, p.key)]
  {
  }

  lemma {:induction false} RowsOkLast(hosts: seq<Host>, done: seq<Process>, p: Process)
    requires RowsOk(hosts, done) && p.wellFormed && Position(hosts, p.key) < |hosts|
    ensures RowsOk(hosts, done + [p])
  {
    var all := done + [p];
    forall i | 0 <= i < |all|
      ensures all[i].wellFormed && Position(hosts, all[i].key) < |hosts|
    {
      assert all[i] == if i < |done| then done[i] else p;
    }
  }

  lemma RepeatedPid(processes: seq<Process>, i: nat, pids: set<(Key, string)>)
    requires i < |processes| && PidsGathered(processes[..i], pids)
    requires (processes[i].key, processes[i].pid) in pids
    ensures !PidsDistinct(processes)
  {
    var j :| 0 <= j < i && (processes[..i][j].key, processes[..i][j].pid) == (processes[i].key, processes[i].pid);
    assert processes[j].key == processes[i].key && processes[j].pid == processes[i].pid;
  }

  method GatherProcesses(hosts: seq<Host>, positions: map<Key, nat>, processes: seq<Process>)
    returns (ok: bool, details: map<Key, seq<Process>>)
    requires Indexes(hosts, positions)
    ensures ok <==> ProcessesOk(hosts, processes)
    ensures ok ==> GroupsGathered(hosts, processes, details)
  {
    details := map key | key in positions :: [];
    var order: seq<nat> := [];
    var pids: set<(Key, string)> := {};
    GatherNone(hosts, positions, details);
    assert processes[..0] == [];
    for i := 0 to |processes|
      invariant Gathered(hosts, processes[..i], details, order, pids)
    {
      var row := processes[i];
      if !row.wellFormed || row.key !in positions {
        BadRow(hosts, processes, i);
        return false, details;
      }
      if (row.key, row.pid) in pids {
        RepeatedPid(processes, i, pids);
        return false, details;
      }
      GatherOne(hosts, processes, i, details, order, pids);
      pids := pids + {(row.key, row.pid)};
      details := details[row.key := details[row.key] + [row]];
      order := order + [positions[row.key]];
    }
    assert processes[..|processes|] == processes;
    ok := forall i, j :: 0 <= i < j < |order| ==> order[i] <= order[j];
    PlacesSorted(hosts, processes, order);
  }

  lemma GatherNone(hosts: seq<Host>, positions: map<Key, nat>, details: map<Key, seq<Process>>)
    requires Indexes(hosts, positions)
    requires details.Keys == positions.Keys && forall key :: key in details ==> details[key] == []
    ensures Gathered(hosts, [], details, [], {})
  {
  }

  lemma {:induction false} BadRow(hosts: seq<Host>, processes: seq<Process>, i: nat)
    requires i < |processes| && !(processes[i].wellFormed && Position(hosts, processes[i].key) < |hosts|)
    ensures !RowsOk(hosts, processes)
  {
  }

  lemma PlacesSorted(hosts: seq<Host>, processes: seq<Process>, order: seq<nat>)
    requires order == Places(hosts, processes)
    ensures InHostOrder(hosts, processes) <==> forall i, j :: 0 <= i < j < |order| ==> order[i] <= order[j]
  {
    assert forall i :: 0 <= i < |processes| ==> order[i] == Position(hosts, processes[i].key);
  }

  method VerifyFuzzProcessDetails(hosts: seq<Host>, processes: seq<Process>, unitCount: int) returns (ok: bool)
    ensures ok <==> DetailsOk(hosts, processes, unitCount)
  {
    var indexed, positions := IndexHosts(hosts, unitCount);
    if !indexed {
      return false;
    }
    var gathered, details := GatherProcesses(hosts, positions, processes);
    if !gathered {
      return false;
    }
    for k := 0 to |hosts|
      invariant forall j :: 0 <= j < k ==> Aggregates(hosts[j], Group(processes, hosts[j].key))
    {
      assert Position(hosts, hosts[k].key) < |hosts|;
      var group := details[hosts[k].key];
      var totalCpu, totalRss := CpuSum(group), RssSum(group);
      if hosts[k].processes != |group| || hosts[k].cpu != Hundredths(totalCpu) || hosts[k].rss != totalRss {
        return false;
      }
    }
    return true;
  }

  // ------------------------------------------------------------------ an accepted table is a partition

  /** The groups of the first `k` host samples, one after another. */
  function Groups(hosts: seq<Host>, processes: seq<Process>, k: nat): seq<Process>
    requires k <= |hosts|
  {
    if k == 0 then [] else Groups(hosts, processes, k - 1) + Group(processes, hosts[k - 1].key)
  }

  /** Rows with one key that stand together are their group. */
  lemma {:induction false} GroupIsBlock(processes: seq<Process>, key: Key, lo: nat, hi: nat)
    requires lo <= hi <= |processes|
    requires forall i :: 0 <= i < |processes| ==> (processes[i].key == key <==> lo <= i < hi)
    ensures Group(processes, key) == processes[lo..hi]
    decreases |processes|
  {
    if |processes| > 0 {
      var n := |processes| - 1;
      var init := processes[..n];
      if hi == |processes| && lo < hi {
        GroupIsBlock(init, key, lo, n);
        assert processes[lo..hi] == init[lo..n] + [processes[n]];
      } else {
        var h := if hi > n then n else hi;
        var l := if lo > n then n else lo;
        GroupIsBlock(init, key, l, h);
        assert processes[lo..hi] == init[l..h];
      }
    }
  }

  /** Rows of the first `k` host samples form a prefix. */
  lemma PrefixOfHosts(hosts: seq<Host>, processes: seq<Process>, k: nat) returns (m: nat)
    requires InHostOrder(hosts, processes)
    ensures m <= |processes|
    ensures forall i :: 0 <= i < |processes| ==> (Position(hosts, processes[i].key) < k <==> i < m)
  {
    m := 0;
    while m < |processes| && Position(hosts, processes[m].key) < k
      invariant m <= |processes|
      invariant forall i :: 0 <= i < m ==> Position(hosts, processes[i].key) < k
    {
      m := m + 1;
    }
  }

  /** That prefix is their groups one after another. */
  lemma {:induction false} GroupsArePrefix(hosts: seq<Host>, processes: seq<Process>, k: nat, m: nat)
    requires KeysDistinct(hosts) && InHostOrder(hosts, processes) && k <= |hosts| && m <= |processes|
    requires forall i :: 0 <= i < |processes| ==> (Position(hosts, processes[i].key) < k <==> i < m)
    ensures Groups(hosts, processes, k) == processes[..m]
  {
    if k > 0 {
      var lo := PrefixOfHosts(hosts, processes, k - 1);
      GroupsArePrefix(hosts, processes, k - 1, lo);
      NextGroup(hosts, processes, k - 1, lo, m);
      assert processes[..m] == processes[..lo] + processes[lo..m];
    } else {
      assert m > 0 ==> Position(hosts, processes[0].key) < k;
    }
  }

  lemma {:induction false} NextGroup(hosts: seq<Host>, processes: seq<Process>, k: nat, lo: nat, hi: nat)
    requires KeysDistinct(hosts) && k < |hosts| && lo <= |processes| && hi <= |processes|
    requires forall i :: 0 <= i < |processes| ==> (Position(hosts, processes[i].key) < k <==> i < lo)
    requires forall i :: 0 <= i < |processes| ==> (Position(hosts, processes[i].key) < k + 1 <==> i < hi)
    ensures lo <= hi && Group(processes, hosts[k].key) == processes[lo..hi]
  {
    assert lo <= hi by {
      assert lo > 0 ==> Position(hosts, processes[lo - 1].key) < k;
    }
    forall i | 0 <= i < |processes|
      ensures processes[i].key == hosts[k].key <==> lo <= i < hi
    {
      PositionOfKey(hosts, processes[i].key, k);
    }
    GroupIsBlock(processes, hosts[k].key, lo, hi);
  }

  lemma {:induction false} PositionOfKey(hosts: seq<Host>, key: Key, k: nat)
    requires KeysDistinct(hosts) && k < |hosts|
    ensures key == hosts[k].key <==> Position(hosts, key) == k
  {
  }

  /** Putting the groups together in host order gives back the process table exactly. */
  lemma {:induction false} Partition(hosts: seq<Host>, processes: seq<Process>, unitCount: int)
    requires DetailsOk(hosts, processes, unitCount)
    ensures Groups(hosts, processes, |hosts|) == processes
  {
    GroupsArePrefix(hosts, processes, |hosts|, |processes|);
    assert processes[..|processes|] == processes;
  }

  function ProcessTotal(hosts: seq<Host>, k: nat): int
    requires k <= |hosts|
  {
    if k == 0 then 0 else ProcessTotal(hosts, k - 1) + hosts[k - 1].processes
  }

  function RssTotal(hosts: seq<Host>, k: nat): int
    requires k <= |hosts|
  {
    if k == 0 then 0 else RssTotal(hosts, k - 1) + hosts[k - 1].rss
  }

  function CpuTotal(hosts: seq<Host>, k: nat): int
    requires k <= |hosts|
  {
    if k == 0 then 0 else CpuTotal(hosts, k - 1) + hosts[k - 1].cpu
  }

  lemma {:induction false} SumsOfConcat(a: seq<Process>, b: seq<Process>)
    ensures RssSum(a + b) == RssSum(a) + RssSum(b)
    ensures CpuSum(a + b) == CpuSum(a) + CpuSum(b)
  {
    if |b| == 0 {
      assert a + b == a;
    } else {
      SumsOfConcat(a, b[..|b| - 1]);
      assert (a + b)[..|a| + |b| - 1] == a + b[..|b| - 1];
    }
  }

  lemma {:induction false} TotalsOfGroups(hosts: seq<Host>, processes: seq<Process>, k: nat)
    requires k <= |hosts|
    requires forall j :: 0 <= j < |hosts| ==> Aggregates(hosts[j], Group(processes, hosts[j].key))
    ensures ProcessTotal(hosts, k) == |Groups(hosts, processes, k)|
    ensures RssTotal(hosts, k) == RssSum(Groups(hosts, processes, k))
    ensures var error := CpuTotal(hosts, k) as real - CpuSum(Groups(hosts, processes, k)) * 100.0;
            -0.5 * k as real <= error <= 0.5 * k as real
  {
    if k > 0 {
      TotalsOfGroups(hosts, processes, k - 1);
      var group := Group(processes, hosts[k - 1].key);
      SumsOfConcat(Groups(hosts, processes, k - 1), group);
      assert Aggregates(hosts[k - 1], group);
      HundredthsClose(CpuSum(group));
    }
  }

  /** The nearest hundredth, and the upper one of two that are as near. */
  lemma HundredthsClose(x: real)
    ensures -0.5 < Hundredths(x) as real - x * 100.0 <= 0.5
  {
    var y := x * 100.0 + 0.5;
    assert y.Floor as real <= y < y.Floor as real + 1.0;
  }

  /** And no other. */
  lemma HundredthsUnique(x: real, n: int)
    requires -0.5 < n as real - x * 100.0 <= 0.5
    ensures n == Hundredths(x)
  {
    HundredthsClose(x);
    assert -1.0 < (n - Hundredths(x)) as real < 1.0;
  }

  /**
   Nothing is lost or counted twice: the host columns add up to the whole process table, and the CPU columns
   to its CPU time within half a hundredth for each host sample.
   */
  lemma {:induction false} Conservation(hosts: seq<Host>, processes: seq<Process>, unitCount: int)
    requires DetailsOk(hosts, processes, unitCount)
    ensures ProcessTotal(hosts, |hosts|) == |processes|
    ensures RssTotal(hosts, |hosts|) == RssSum(processes)
    ensures var error := CpuTotal(hosts, |hosts|) as real - CpuSum(processes) * 100.0;
            -0.5 * |hosts| as real <= error <= 0.5 * |hosts| as real
  {
    Partition(hosts, processes, unitCount);
    TotalsOfGroups(hosts, processes, |hosts|);
  }

  // ------------------------------------------------------------------ exactly the tables a sampler writes

  /** One host sample and the process rows taken with it. */
  predicate Sampled(host: Host, rows: seq<Process>, unitCount: int) {
    && host.activeUnits <= unitCount
    && (forall i :: 0 <= i < |rows| ==> rows[i].wellFormed && rows[i].key == host.key)
    && (forall i, j :: 0 <= i < j < |rows| ==> rows[i].pid != rows[j].pid)
    && host.processes == |rows| && host.rss == RssSum(rows)
    && -0.5 < host.cpu as real - CpuSum(rows) * 100.0 <= 0.5
  }

  /** The rows of the first `k` host samples, one after another. */
  function Joined(rows: seq<seq<Process>>, k: nat): seq<Process>
    requires k <= |rows|
  {
    if k == 0 then [] else Joined(rows, k - 1) + rows[k - 1]
  }

  /** The tables that sampling once for each host sample leaves behind. */
  ghost predicate WrittenAs(hosts: seq<Host>, rows: seq<seq<Process>>, processes: seq<Process>, unitCount: int) {
    && |rows| == |hosts| && KeysDistinct(hosts) && processes == Joined(rows, |rows|)
    && forall k :: 0 <= k < |hosts| ==> Sampled(hosts[k], rows[k], unitCount)
  }

  lemma {:induction false} PositionOf(hosts: seq<Host>, k: nat)
    requires KeysDistinct(hosts) && k < |hosts|
    ensures Position(hosts, hosts[k].key) == k
  {
  }

  /** Rows written for the first `k` host samples are in order and belong to these. */
  ghost predicate OrderedBelow(hosts: seq<Host>, processes: seq<Process>, k: nat) {
    && ProcessesOk(hosts, processes)
    && forall i :: 0 <= i < |processes| ==> Position(hosts, processes[i].key) < k
  }

  lemma MoreRows(hosts: seq<Host>, before: seq<Process>, rows: seq<Process>, k: nat, unitCount: int)
    requires KeysDistinct(hosts) && k < |hosts| && OrderedBelow(hosts, before, k) && Sampled(hosts[k], rows, unitCount)
    ensures OrderedBelow(hosts, before + rows, k + 1)
  {
    PositionOf(hosts, k);
    var all := before + rows;
    forall i | 0 <= i < |all|
      ensures all[i].wellFormed
      ensures if i < |before| then Position(hosts, all[i].key) < k else Position(hosts, all[i].key) == k
    {
      assert i >= |before| ==> all[i] == rows[i - |before|];
    }
    forall i, j | 0 <= i < j < |all|
      ensures !(all[i].key == all[j].key && all[i].pid == all[j].pid)
    {
      if i >= |before| {
        assert rows[i - |before|].pid != rows[j - |before|].pid;
      } else if j < |before| {
        assert all[i] == before[i] && all[j] == before[j];
      }
    }
    forall i, j | 0 <= i < j < |all|
      ensures Position(hosts, all[i].key) <= Position(hosts, all[j].key)
    {
      if j < |before| {
        assert all[i] == before[i] && all[j] == before[j];
      }
    }
  }

  lemma {:induction false} JoinedOrdered(hosts: seq<Host>, rows: seq<seq<Process>>, k: nat, unitCount: int)
    requires |rows| == |hosts| && KeysDistinct(hosts) && k <= |hosts|
    requires forall j :: 0 <= j < |hosts| ==> Sampled(hosts[j], rows[j], unitCount)
    ensures OrderedBelow(hosts, Joined(rows, k), k)
  {
    if k > 0 {
      JoinedOrdered(hosts, rows, k - 1, unitCount);
      MoreRows(hosts, Joined(rows, k - 1), rows[k - 1], k - 1, unitCount);
    }
  }

  lemma {:induction false} GroupConcat(a: seq<Process>, b: seq<Process>, key: Key)
    ensures Group(a + b, key) == Group(a, key) + Group(b, key)
    decreases |b|
  {
    if |b| == 0 {
      assert a + b == a;
    } else {
      var n := |b| - 1;
      GroupConcat(a, b[..n], key);
      assert (a + b)[..|a| + n] == a + b[..n];
    }
  }

  lemma {:induction false} GroupAllOrNone(rows: seq<Process>, key: Key)
    ensures (forall i :: 0 <= i < |rows| ==> rows[i].key == key) ==> Group(rows, key) == rows
    ensures (forall i :: 0 <= i < |rows| ==> rows[i].key != key) ==> Group(rows, key) == []
  {
    if |rows| > 0 {
      GroupAllOrNone(rows[..|rows| - 1], key);
      assert rows == rows[..|rows| - 1] + [rows[|rows| - 1]];
    }
  }

  /** The rows of a host sample are those written for it. */
  lemma {:induction false} JoinedGroup(hosts: seq<Host>, rows: seq<seq<Process>>, k: nat, j: nat, unitCount: int)
    requires |rows| == |hosts| && KeysDistinct(hosts) && k <= |hosts| && j < |hosts|
    requires forall l :: 0 <= l < |hosts| ==> Sampled(hosts[l], rows[l], unitCount)
    ensures Group(Joined(rows, k), hosts[j].key) == if j < k then rows[j] else []
    decreases k
  {
    if k > 0 {
      JoinedGroup(hosts, rows, k - 1, j, unitCount);
      GroupConcat(Joined(rows, k - 1), rows[k - 1], hosts[j].key);
      assert Sampled(hosts[k - 1], rows[k - 1], unitCount);
      assert j != k - 1 ==> hosts[j].key != hosts[k - 1].key;
      GroupAllOrNone(rows[k - 1], hosts[j].key);
    }
  }

  lemma WrittenAccepted(hosts: seq<Host>, rows: seq<seq<Process>>, processes: seq<Process>, unitCount: int)
    requires WrittenAs(hosts, rows, processes, unitCount)
    ensures DetailsOk(hosts, processes, unitCount)
  {
    JoinedOrdered(hosts, rows, |hosts|, unitCount);
    forall k | 0 <= k < |hosts|
      ensures hosts[k].activeUnits <= unitCount && Aggregates(hosts[k], Group(processes, hosts[k].key))
    {
      assert Sampled(hosts[k], rows[k], unitCount);
      JoinedGroup(hosts, rows, |hosts|, k, unitCount);
      HundredthsUnique(CpuSum(rows[k]), hosts[k].cpu);
    }
  }

  lemma {:induction false} JoinedIsGroups(hosts: seq<Host>, processes: seq<Process>, rows: seq<seq<Process>>, k: nat)
    requires |rows| == |hosts| && k <= |hosts|
    requires forall j :: 0 <= j < |hosts| ==> rows[j] == Group(processes, hosts[j].key)
    ensures Joined(rows, k) == Groups(hosts, processes, k)
  {
    if k > 0 {
      JoinedIsGroups(hosts, processes, rows, k - 1);
    }
  }

  /** What a group holds are rows of the table with this key, in their order. */
  lemma {:induction false} GroupRows(processes: seq<Process>, key: Key) returns (at: seq<nat>)
    ensures |at| == |Group(processes, key)|
    ensures forall i :: 0 <= i < |at| ==>
              at[i] < |processes| && Group(processes, key)[i] == processes[at[i]] && processes[at[i]].key == key
    ensures forall i, j :: 0 <= i < j < |at| ==> at[i] < at[j]
  {
    if |processes| == 0 {
      at := [];
    } else {
      var n := |processes| - 1;
      at := GroupRows(processes[..n], key);
      if processes[n].key == key {
        at := at + [n];
      }
    }
  }

  lemma AcceptedWritten(hosts: seq<Host>, processes: seq<Process>, unitCount: int) returns (rows: seq<seq<Process>>)
    requires DetailsOk(hosts, processes, unitCount)
    ensures WrittenAs(hosts, rows, processes, unitCount)
  {
    rows := seq(|hosts|, k requires 0 <= k < |hosts| => Group(processes, hosts[k].key));
    JoinedIsGroups(hosts, processes, rows, |hosts|);
    Partition(hosts, processes, unitCount);
    forall k | 0 <= k < |hosts|
      ensures Sampled(hosts[k], rows[k], unitCount)
    {
      assert Aggregates(hosts[k], rows[k]);
      HundredthsClose(CpuSum(rows[k]));
      var at := GroupRows(processes, hosts[k].key);
      forall i, j | 0 <= i < j < |rows[k]|
        ensures rows[k][i].pid != rows[k][j].pid
      {
        assert rows[k][i] == processes[at[i]] && rows[k][j] == processes[at[j]];
      }
    }
  }

  /** The validator accepts exactly the tables that sampling leaves behind. */
  lemma AcceptedExactly(hosts: seq<Host>, processes: seq<Process>, unitCount: int)
    ensures DetailsOk(hosts, processes, unitCount) <==> exists rows :: WrittenAs(hosts, rows, processes, unitCount)
  {
    if DetailsOk(hosts, processes, unitCount) {
      var rows := AcceptedWritten(hosts, processes, unitCount);
    }
    if rows :| WrittenAs(hosts, rows, processes, unitCount) {
      WrittenAccepted(hosts, rows, processes, unitCount);
    }
  }
}
