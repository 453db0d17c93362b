/** The response checker of scripts/physical-benchmark-workload.py. */
module Responses {
  import opened Options
  import opened DnsNames
  import opened Numerals
  import opened Reachability
  import opened Wire

  const RR_NS := 2
  const RR_CNAME := 5
  const RR_PTR := 12
  const RR_DNAME := 39
  const RR_A := 1
  const RR_AAAA := 28
  const RR_OPT := 41
  const CLASS_IN := 1
  const TYPE_ANY := 255
  const ROOT: Octets := [DOT]

  datatype Query = Query(name: Octets, kind: nat)

  /** One resource record, with the offsets of its first octet, its data and the octet after it. */
  datatype Record = Record(start: nat, owner: Octets, kind: nat, cls: nat, ttlTop: nat, data: nat, end: nat,
                           target: Octets)

  predicate HoldsName(kind: nat) {
    kind == RR_NS || kind == RR_CNAME || kind == RR_PTR || kind == RR_DNAME
  }

  /** The record starting at `offset`, if one is there whole and its data has the length its type demands. */
  function RecordAt(packet: Octets, offset: nat): (r: Option<Record>)
    ensures r.Some? ==> r.value.start == offset && offset + 11 <= r.value.data <= r.value.end <= |packet|
  {
    var owner :- Decode(packet, offset);
    var at := owner.end;
    ExpandEnd(packet, offset, 1);
    if at + 10 > |packet| then None
    else
      var kind, size, data := U16(packet, at), U16(packet, at + 8), at + 10;
      var record := Record(offset, owner.name, kind, U16(packet, at + 2), packet[at + 4], data, data + size, []);
      if data + size > |packet| then None
      else if (kind == RR_A && size != 4) || (kind == RR_AAAA && size != 16) then None
      else if HoldsName(kind) then
        var target :- Decode(packet, data);
        if target.end != data + size then None else Some(record.(target := target.name))
      else Some(record)
  }

  method ReadRecord(packet: Octets, start: nat) returns (r: Option<Record>)
    ensures r == Reader(packet)(start)
    ensures r.Some? ==> start < r.value.data <= r.value.end <= |packet|
  {
    var owner :- DecodeName(packet, start);
    var offset := owner.end;
    if offset + 10 > |packet| {
      return None;
    }
    var kind, cls, ttlTop, size := U16(packet, offset), U16(packet, offset + 2), packet[offset + 4],
        U16(packet, offset + 8);
    offset := offset + 10;
    var end := offset + size;
    if end > |packet| {
      return None;
    }
    var target: Octets := [];
    if kind in {RR_NS, RR_CNAME, RR_PTR, RR_DNAME} {
      var name :- DecodeName(packet, offset);
      if name.end != end {
        return None;
      }
      target := name.name;
    }
    if (kind == RR_A && size != 4) || (kind == RR_AAAA && size != 16) {
      return None;
    }
    return Some(Record(start, owner.name, kind, cls, ttlTop, offset, end, target));
  }

  // ------------------------------------------------------------------ EDNS options

  /** `cuts` divides the data from `from` to `to` into whole options: code, length, then that many octets. */
  ghost predicate CutsInto(packet: Octets, from: nat, to: nat, cuts: seq<nat>)
    requires to <= |packet|
  {
    && |cuts| > 0 && cuts[0] == from && cuts[|cuts| - 1] == to
    && forall i :: 0 < i < |cuts| ==> CutsAt(packet, to, cuts, i)
  }

  ghost predicate CutsAt(packet: Octets, to: nat, cuts: seq<nat>, i: nat)
    requires to <= |packet| && 0 < i < |cuts|
  {
    cuts[i - 1] + 4 <= cuts[i] <= to && cuts[i] == cuts[i - 1] + 4 + U16(packet, cuts[i - 1] + 2)
  }

  ghost predicate OptionsTile(packet: Octets, from: nat, to: nat)
    requires to <= |packet|
  {
    exists cuts :: CutsInto(packet, from, to, cuts)
  }

  lemma OptionsTileSplit(packet: Octets, from: nat, to: nat)
    requires from < to <= |packet|
    requires OptionsTile(packet, from, to)
    ensures from + 4 <= to
    ensures from + 4 + U16(packet, from + 2) <= to
    ensures OptionsTile(packet, from + 4 + U16(packet, from + 2), to)
  {
    var cuts :| CutsInto(packet, from, to, cuts);
    assert |cuts| > 1 && CutsAt(packet, to, cuts, 1);
    var rest := cuts[1..];
    forall i | 0 < i < |rest|
      ensures CutsAt(packet, to, rest, i)
    {
      assert CutsAt(packet, to, cuts, i + 1);
    }
    assert CutsInto(packet, cuts[1], to, rest);
  }

  lemma OptionsTileJoin(packet: Octets, from: nat, to: nat)
    requires from + 4 <= to <= |packet|
    requires from + 4 + U16(packet, from + 2) <= to
    requires OptionsTile(packet, from + 4 + U16(packet, from + 2), to)
    ensures OptionsTile(packet, from, to)
  {
    var rest :| CutsInto(packet, from + 4 + U16(packet, from + 2), to, rest);
    var cuts := [from] + rest;
    forall i | 0 < i < |cuts|
      ensures CutsAt(packet, to, cuts, i)
    {
      if i > 1 {
        assert CutsAt(packet, to, rest, i - 1);
      }
    }
    assert CutsInto(packet, from, to, cuts);
  }

  lemma OptionsTileStep(packet: Octets, from: nat, to: nat)
    requires from < to <= |packet|
    ensures OptionsTile(packet, from, to) <==>
            && from + 4 <= to
            && from + 4 + U16(packet, from + 2) <= to
            && OptionsTile(packet, from + 4 + U16(packet, from + 2), to)
  {
    if OptionsTile(packet, from, to) {
      OptionsTileSplit(packet, from, to);
    } else if from + 4 <= to {
      var next := from + 4 + U16(packet, from + 2);
      if next <= to && OptionsTile(packet, next, to) {
        OptionsTileJoin(packet, from, to);
      }
    }
  }

  method CheckOptions(packet: Octets, offset: nat, end: nat) returns (ok: bool)
    requires offset <= end <= |packet|
    ensures ok <==> OptionsTile(packet, offset, end)
  {
    var cursor := offset;
    while cursor < end
      invariant cursor <= end
      invariant OptionsTile(packet, offset, end) <==> OptionsTile(packet, cursor, end)
    {
      OptionsTileStep(packet, cursor, end);
      if cursor + 4 > end {
        return false;
      }
      cursor := cursor + 4 + U16(packet, cursor + 2);
      if cursor > end {
        return false;
      }
    }
    assert CutsInto(packet, end, end, [end]);
    return true;
  }

  // ------------------------------------------------------------------ whole messages

  function StartOf(from: nat, records: seq<Record>, i: nat): nat
    requires i <= |records|
  {
    if i == 0 then from else records[i - 1].end
  }

  /** Reading records of one packet, as a value: the laws about chains need nothing else. */
  function Reader(packet: Octets): nat -> Option<Record> {
    (offset: nat) => RecordAt(packet, offset)
  }

  /** A reader puts each record where it was read, and no record is empty. */
  ghost predicate InPlace(read: nat -> Option<Record>) {
    forall offset: nat :: read(offset).Some? ==> read(offset).value.start == offset < read(offset).value.end
  }

  /** The records follow one another from `from` with nothing between them. */
  ghost predicate Chain(read: nat -> Option<Record>, from: nat, records: seq<Record>) {
    forall i {:trigger StartOf(from, records, i)} ::
      0 <= i < |records| ==> read(StartOf(from, records, i)) == Some(records[i])
  }

  /** An OPT record has the root as its owner, comes after `before` records, is the first, and holds whole options. */
  ghost predicate OptAllowed(packet: Octets, records: seq<Record>, i: nat, before: nat)
    requires i < |records| && records[i].end <= |packet|
  {
    records[i].kind == RR_OPT ==>
      && i >= before
      && records[i].owner == ROOT
      && OptionsTile(packet, records[i].data, records[i].end)
      && forall j :: 0 <= j < i ==> records[j].kind != RR_OPT
  }

  predicate HeaderOk(packet: Octets, identifier: nat) {
    && |packet| >= HEADER_SIZE
    && U16(packet, 0) == identifier
    && (U16(packet, 2) / 0x8000) % 2 == 1
    && (U16(packet, 2) / 0x800) % 16 == 0
    && (U16(packet, 2) / 0x200) % 2 == 0
    && U16(packet, 4) == 1
  }

  predicate QuestionOk(packet: Octets, query: Query) {
    match Decode(packet, HEADER_SIZE)
    case None => false
    case Some(d) =>
      && d.end + 4 <= |packet|
      && d.name == query.name && U16(packet, d.end) == query.kind && U16(packet, d.end + 2) == CLASS_IN
  }

  function Answers(packet: Octets): nat
    requires |packet| >= HEADER_SIZE
  {
    U16(packet, 6)
  }

  function BeforeAdditional(packet: Octets): nat
    requires |packet| >= HEADER_SIZE
  {
    U16(packet, 6) + U16(packet, 8)
  }

  function RecordCount(packet: Octets): nat
    requires |packet| >= HEADER_SIZE
  {
    U16(packet, 6) + U16(packet, 8) + U16(packet, 10)
  }

  /** `records` are the first records after the question, each allowed where it stands. */
  ghost predicate Opens(packet: Octets, from: nat, records: seq<Record>)
    requires |packet| >= HEADER_SIZE
  {
    && Chain(Reader(packet), from, records)
    && forall i :: 0 <= i < |records| ==>
         records[i].end <= |packet| && OptAllowed(packet, records, i, BeforeAdditional(packet))
  }

  /** Exactly the counted records fill the packet from `from` to its last octet. */
  ghost predicate Fills(packet: Octets, from: nat, records: seq<Record>)
    requires |packet| >= HEADER_SIZE
  {
    && |records| == RecordCount(packet)
    && Opens(packet, from, records)
    && StartOf(from, records, |records|) == |packet|
  }

  /** A packet is cut into records in at most one way. */
  lemma {:induction false} ChainUnique(read: nat -> Option<Record>, from: nat, a: seq<Record>, b: seq<Record>)
    requires Chain(read, from, a) && Chain(read, from, b) && |a| <= |b|
    ensures a == b[..|a|]
    decreases |a|
  {
    if |a| > 0 {
      var n := |a| - 1;
      assert Chain(read, from, a[..n]) by {
        assert forall i :: 0 <= i < n ==> StartOf(from, a[..n], i) == StartOf(from, a, i);
      }
      ChainUnique(read, from, a[..n], b);
      assert StartOf(from, a, n) == StartOf(from, b, n) by {
        assert n > 0 ==> a[n - 1] == a[..n][n - 1] == b[..n][n - 1];
      }
      assert a == a[..n] + [a[n]] && b[..n + 1] == b[..n] + [b[n]];
    }
  }

  /** Every octet after the question belongs to exactly one record. */
  lemma EachOctetOnce(read: nat -> Option<Record>, from: nat, records: seq<Record>, at: nat)
    requires InPlace(read) && Chain(read, from, records)
    requires from <= at < StartOf(from, records, |records|)
    ensures exists i :: 0 <= i < |records| && records[i].start <= at < records[i].end
    ensures forall i, j ::
              0 <= i < j < |records| ==>
                !(records[i].start <= at < records[i].end && records[j].start <= at < records[j].end)
  {
    var n := |records| - 1;
    while at < StartOf(from, records, n)
      invariant 0 <= n < |records|
      invariant at < records[n].end
    {
      n := n - 1;
    }
    assert read(StartOf(from, records, n)) == Some(records[n]);
    forall i, j | 0 <= i < j < |records|
      ensures records[i].end <= records[j].start
    {
      EndsBefore(read, from, records, i, j);
    }
  }

  lemma {:induction false} EndsBefore(read: nat -> Option<Record>, from: nat, records: seq<Record>, i: nat, j: nat)
    requires InPlace(read) && Chain(read, from, records) && i < j < |records|
    ensures records[i].end <= records[j].start
    decreases j
  {
    assert read(StartOf(from, records, j)) == Some(records[j]);
    if i + 1 < j {
      EndsBefore(read, from, records, i, j - 1);
      assert read(StartOf(from, records, j - 1)) == Some(records[j - 1]);
    }
  }

  lemma ReaderInPlace(packet: Octets)
    ensures InPlace(Reader(packet))
  {
  }

  // ------------------------------------------------------------------ walking the records

  lemma OpensMore(packet: Octets, from: nat, records: seq<Record>, next: Record)
    requires |packet| >= HEADER_SIZE
    requires Opens(packet, from, records)
    requires Reader(packet)(StartOf(from, records, |records|)) == Some(next)
    requires next.end <= |packet|
    requires OptAllowed(packet, records + [next], |records|, BeforeAdditional(packet))
    ensures Opens(packet, from, records + [next])
  {
    var more := records + [next];
    assert forall i {:trigger StartOf(from, more, i)} ::
        0 <= i <= |records| ==> StartOf(from, more, i) == StartOf(from, records, i);
    forall i | 0 <= i < |more|
      ensures more[i].end <= |packet| && OptAllowed(packet, more, i, BeforeAdditional(packet))
    {
      if i < |records| {
        assert OptAllowed(packet, records, i, BeforeAdditional(packet));
      }
    }
  }

  /** Where the walk cannot go on, no division into records exists. */
  lemma StuckMeansNone(packet: Octets, from: nat, records: seq<Record>, full: seq<Record>)
    requires |packet| >= HEADER_SIZE
    requires Opens(packet, from, records) && |records| < RecordCount(packet)
    requires Fills(packet, from, full)
    ensures var next := Reader(packet)(StartOf(from, records, |records|));
            && next.Some?
            && next.value.end <= |packet|
            && OptAllowed(packet, records + [next.value], |records|, BeforeAdditional(packet))
  {
    var n := |records|;
    ChainUnique(Reader(packet), from, records, full);
    assert StartOf(from, full, n) == StartOf(from, records, n) by {
      assert n > 0 ==> full[..n][n - 1] == records[n - 1];
    }
    assert Reader(packet)(StartOf(from, full, n)) == Some(full[n]);
    assert OptAllowed(packet, full, n, BeforeAdditional(packet));
    assert forall j :: 0 <= j < n ==> full[j] == full[..n][j];
  }

  /** The upper octet of the OPT time-to-live, shifted left by four; zero without an OPT record. */
  function ExtendedRcode(records: seq<Record>): nat {
    if |records| == 0 then 0
    else if records[|records| - 1].kind == RR_OPT then records[|records| - 1].ttlTop * 16
    else ExtendedRcode(records[..|records| - 1])
  }

  ghost predicate HasOpt(records: seq<Record>) {
    exists i :: 0 <= i < |records| && records[i].kind == RR_OPT
  }

  /** The answers kept and the extended code read while walking the records. */
  datatype Walked = Walked(answers: seq<Record>, extendedRcode: nat)

  method WalkRecords(packet: Octets, from: nat) returns (r: Option<Walked>)
    requires |packet| >= HEADER_SIZE
    ensures r.Some? <==> exists records :: Fills(packet, from, records)
    ensures r.Some? ==>
              forall records :: Fills(packet, from, records) ==>
                r.value == Walked(records[..Answers(packet)], ExtendedRcode(records))
  {
    var offset := from;
    var answers: seq<Record>, extendedRcode, seenOpt := [], 0, false;
    ghost var walked: seq<Record> := [];
    for index := 0 to RecordCount(packet)
      invariant |walked| == index && Opens(packet, from, walked)
      invariant offset == StartOf(from, walked, index)
      invariant answers == walked[..if index < Answers(packet) then index else Answers(packet)]
      invariant extendedRcode == ExtendedRcode(walked)
      invariant seenOpt <==> HasOpt(walked)
    {
      forall full | Fills(packet, from, full)
        ensures var next := Reader(packet)(offset);
                next.Some? && next.value.end <= |packet|
                && OptAllowed(packet, walked + [next.value], index, BeforeAdditional(packet))
      {
        StuckMeansNone(packet, from, walked, full);
      }
      var record := ReadRecord(packet, offset);
      if record.None? {
        return None;
      }
      ghost var more := walked + [record.value];
      assert more[..index] == walked;
      if record.value.kind == RR_OPT {
        if seenOpt || index < BeforeAdditional(packet) || record.value.owner != ROOT {
          return None;
        }
        seenOpt := true;
        extendedRcode := record.value.ttlTop * 16;
        var whole := CheckOptions(packet, record.value.data, record.value.end);
        if !whole {
          return None;
        }
        assert more[index].kind == RR_OPT;
      }
      if index < Answers(packet) {
        answers := answers + [record.value];
      }
      OpensMore(packet, from, walked, record.value);
      assert HasOpt(more) <==> HasOpt(walked) || record.value.kind == RR_OPT;
      walked := more;
      offset := record.value.end;
    }
    forall full | Fills(packet, from, full)
      ensures full == walked
    {
      ChainUnique(Reader(packet), from, walked, full);
    }
    if offset != |packet| {
      return None;
    }
    assert Fills(packet, from, walked);
    return Some(Walked(answers, extendedRcode));
  }

  // ------------------------------------------------------------------ following aliases

  predicate IsAlias(record: Record) {
    record.kind == RR_CNAME && record.cls == CLASS_IN
  }

  /** The alias dictionary: each owner's CNAME targets in order. */
  function Aliases(answers: seq<Record>): map<Octets, seq<Octets>> {
    if |answers| == 0 then map[]
    else
      var rest, last := Aliases(answers[..|answers| - 1]), answers[|answers| - 1];
      if IsAlias(last) then rest[last.owner := Successors(rest, last.owner) + [last.target]] else rest
  }

  ghost predicate AliasLink(answers: seq<Record>, owner: Octets, target: Octets) {
    exists i :: 0 <= i < |answers| && IsAlias(answers[i]) && answers[i].owner == owner && answers[i].target == target
  }

  /** The edges of the dictionary are exactly the CNAME answers of class IN. */
  lemma {:induction false} AliasEdges(answers: seq<Record>, owner: Octets, target: Octets)
    ensures target in Successors(Aliases(answers), owner) <==> AliasLink(answers, owner, target)
  {
    if |answers| > 0 {
      var n := |answers| - 1;
      AliasEdges(answers[..n], owner, target);
      assert forall i :: 0 <= i < n ==> answers[..n][i] == answers[i];
      assert answers[n].owner == owner && IsAlias(answers[n]) ==>
          Successors(Aliases(answers), owner) == Successors(Aliases(answers[..n]), owner) + [answers[n].target];
    }
  }

  /** A chain of names, each the target of a CNAME answer owned by the one before it. */
  ghost predicate AliasChain(answers: seq<Record>, names: seq<Octets>) {
    |names| > 0 && forall k :: 0 < k < |names| ==> AliasLink(answers, names[k - 1], names[k])
  }

  lemma {:induction false} AliasChainIsPath(answers: seq<Record>, names: seq<Octets>)
    ensures AliasChain(answers, names) <==> IsPath(Aliases(answers), names)
  {
    forall k | 0 < k < |names|
      ensures names[k] in Successors(Aliases(answers), names[k - 1]) <==> AliasLink(answers, names[k - 1], names[k])
    {
      AliasEdges(answers, names[k - 1], names[k]);
    }
  }

  /** Some answer of class IN and of the asked type is owned by the end of an alias chain from the question. */
  ghost predicate Answered(answers: seq<Record>, query: Query) {
    exists i, names ::
      && 0 <= i < |answers| && answers[i].cls == CLASS_IN && (answers[i].kind == query.kind || query.kind == TYPE_ANY)
      && AliasChain(answers, names) && names[0] == query.name && names[|names| - 1] == answers[i].owner
  }

  method HasRequestedAnswer(answers: seq<Record>, query: Query) returns (found: bool)
    ensures found <==> Answered(answers, query)
  {
    var aliases: map<Octets, seq<Octets>> := map[];
    for i := 0 to |answers|
      invariant aliases == Aliases(answers[..i])
    {
      if IsAlias(answers[i]) {
        aliases := aliases[answers[i].owner := Successors(aliases, answers[i].owner) + [answers[i].target]];
      }
      assert answers[..i + 1][..i] == answers[..i];
    }
    assert answers[..|answers|] == answers;
    var reachable := Follow(aliases, query.name);
    ChainsAreReachability(answers, query.name);
    found := exists i :: 0 <= i < |answers| && answers[i].owner in reachable
                         && answers[i].cls == CLASS_IN && (answers[i].kind == query.kind || query.kind == TYPE_ANY);
  }

  lemma {:induction false} ChainsAreReachability(answers: seq<Record>, start: Octets)
    ensures forall to :: Reaches(Aliases(answers), start, to) <==>
              exists names :: AliasChain(answers, names) && names[0] == start && names[|names| - 1] == to
  {
    forall names: seq<Octets>
      ensures AliasChain(answers, names) <==> IsPath(Aliases(answers), names)
    {
      AliasChainIsPath(answers, names);
    }
  }

  // ------------------------------------------------------------------ the whole check

  /** The names the script knows, and RCODE with the number for any other. */
  function RcodeName(rcode: nat): string {
    match rcode
    case 0 => "NOERROR"
    case 1 => "FORMERR"
    case 2 => "SERVFAIL"
    case 3 => "NXDOMAIN"
    case 4 => "NOTIMP"
    case 5 => "REFUSED"
    case _ => "RCODE" + Decimal(rcode)
  }

  /** A report's name determines the response code. */
  lemma RcodeNamesDiffer(m: nat, n: nat)
    requires RcodeName(m) == RcodeName(n)
    ensures m == n
  {
    var s, t := RcodeName(m), RcodeName(n);
    assert m > 5 ==> s[1] == 'C' && s[5..] == Decimal(m);
    assert n > 5 ==> t[1] == 'C' && t[5..] == Decimal(n);
    assert m <= 5 ==> s[1] != 'C';
    assert n <= 5 ==> t[1] != 'C';
    if m > 5 && n > 5 {
      DecimalDiffers(m, n);
    }
  }

  datatype Report = Report(rcode: string, aa: bool, answerCount: nat, hasRequestedAnswer: bool, responseBytes: nat)

  /** The packet answers this identifier and question, and its records fill it. */
  ghost predicate Accepted(packet: Octets, identifier: nat, query: Query) {
    && HeaderOk(packet, identifier)
    && QuestionOk(packet, query)
    && exists records :: Fills(packet, QuestionEnd(packet), records)
  }

  function QuestionEnd(packet: Octets): nat
    requires Decode(packet, HEADER_SIZE).Some?
  {
    Decode(packet, HEADER_SIZE).value.end + 4
  }

  predicate FlagsReported(packet: Octets, records: seq<Record>, report: Report)
    requires |packet| >= HEADER_SIZE
  {
    && report.rcode == RcodeName(U16(packet, 2) % 16 + ExtendedRcode(records))
    && (report.aa <==> (U16(packet, 2) / 0x400) % 2 == 1)
  }

  /** What the records of an accepted packet say. */
  ghost predicate Reports(packet: Octets, query: Query, records: seq<Record>, report: Report)
    requires |packet| >= HEADER_SIZE && Answers(packet) <= |records|
  {
    && FlagsReported(packet, records, report)
    && report.answerCount == Answers(packet)
    && (report.hasRequestedAnswer <==> Answered(records[..Answers(packet)], query))
    && report.responseBytes == |packet|
  }

  /** The header and question checks; the result is the offset of the first record. */
  method ReadQuestion(packet: Octets, identifier: nat, query: Query) returns (r: Option<nat>)
    ensures r.Some? <==> HeaderOk(packet, identifier) && QuestionOk(packet, query)
    ensures r.Some? ==> r.value == QuestionEnd(packet)
  {
    if |packet| < HEADER_SIZE {
      return None;
    }
    var flags := U16(packet, 2);
    if U16(packet, 0) != identifier || (flags / 0x8000) % 2 == 0 || (flags / 0x800) % 16 != 0
       || (flags / 0x200) % 2 != 0 || U16(packet, 4) != 1 {
      return None;
    }
    var question :- DecodeName(packet, HEADER_SIZE);
    var offset := question.end;
    if offset + 4 > |packet| {
      return None;
    }
    if question.name != query.name || U16(packet, offset) != query.kind || U16(packet, offset + 2) != CLASS_IN {
      return None;
    }
    return Some(offset + 4);
  }

  method ParseResponse(packet: Octets, identifier: nat, query: Query) returns (r: Option<Report>)
    ensures r.Some? <==> Accepted(packet, identifier, query)
    ensures r.Some? ==>
              forall records :: Fills(packet, QuestionEnd(packet), records) ==> Reports(packet, query, records, r.value)
  {
    var offset :- ReadQuestion(packet, identifier, query);
    var walked :- WalkRecords(packet, offset);
    var found := HasRequestedAnswer(walked.answers, query);
    var flags := U16(packet, 2);
    var rcode := RcodeName(flags % 16 + walked.extendedRcode);
    return Some(Report(rcode, (flags / 0x400) % 2 == 1, Answers(packet), found, |packet|));
  }

  /** In an accepted packet at most one record is an OPT, and it lies among the additional records. */
  lemma {:induction false} OptAtMostOnce(packet: Octets, from: nat, records: seq<Record>, i: nat, j: nat)
    requires |packet| >= HEADER_SIZE && Fills(packet, from, records)
    requires i < |records| && j < |records| && records[i].kind == RR_OPT && records[j].kind == RR_OPT
    ensures i == j && BeforeAdditional(packet) <= i && records[i].owner == ROOT
    ensures OptionsTile(packet, records[i].data, records[i].end)
    ensures ExtendedRcode(records) == records[i].ttlTop * 16
  {
    assert OptAllowed(packet, records, i, BeforeAdditional(packet));
    assert OptAllowed(packet, records, j, BeforeAdditional(packet));
    forall k | i < k < |records|
      ensures records[k].kind != RR_OPT
    {
      assert OptAllowed(packet, records, k, BeforeAdditional(packet));
    }
    OnlyOptCounts(records, i);
  }

  lemma {:induction false} OnlyOptCounts(records: seq<Record>, i: nat)
    requires i < |records| && records[i].kind == RR_OPT
    requires forall k :: i < k < |records| ==> records[k].kind != RR_OPT
    ensures ExtendedRcode(records) == records[i].ttlTop * 16
  {
    if i < |records| - 1 {
      OnlyOptCounts(records[..|records| - 1], i);
    }
  }

  /** Every octet from the end of the question to the end of an accepted packet is in exactly one record. */
  lemma AcceptedTiles(packet: Octets, records: seq<Record>, at: nat)
    requires |packet| >= HEADER_SIZE && Decode(packet, HEADER_SIZE).Some?
    requires Fills(packet, QuestionEnd(packet), records)
    requires QuestionEnd(packet) <= at < |packet|
    ensures exists i :: 0 <= i < |records| && records[i].start <= at < records[i].end
    ensures forall i, j ::
              0 <= i < j < |records| ==>
                !(records[i].start <= at < records[i].end && records[j].start <= at < records[j].end)
  {
    ReaderInPlace(packet);
    EachOctetOnce(Reader(packet), QuestionEnd(packet), records, at);
  }

  // ------------------------------------------------------------------ probe and response

  /** The question the probe sends: the encoded name, the type and class IN. */
  function QuestionWire(name: string, kind: nat): Octets
    requires Encodable(name) && LabelsOk(WireLabels(name)) && kind < 0x1_0000
  {
    LabelsWire(WireLabels(name)) + [0] + [kind / 0x100, kind % 0x100, 0, CLASS_IN]
  }

  /** A server that copies the probe's question passes the question check, whatever records follow. */
  lemma {:induction false} EchoedQuestionMatches(name: string, kind: nat, header: Octets, records: Octets)
    requires Encodable(name) && kind < 0x1_0000 && |header| == HEADER_SIZE
    ensures LabelsOk(WireLabels(name))
    ensures var packet := header + QuestionWire(name, kind) + records;
            && QuestionOk(packet, Query(Lower(Ascii(StripDots(name))) + [DOT], kind))
            && QuestionEnd(packet) == HEADER_SIZE + |QuestionWire(name, kind)|
  {
    var tail: Octets := [kind / 0x100, kind % 0x100, 0, CLASS_IN];
    RoundTrip(name, header, tail + records);
    var wire := LabelsWire(WireLabels(name)) + [0];
    var packet := header + QuestionWire(name, kind) + records;
    assert packet == header + wire + (tail + records);
    TailReads(header + wire, kind, records);
    assert packet == (header + wire) + tail + records;
  }

  lemma TailReads(before: Octets, kind: nat, records: Octets)
    requires kind < 0x1_0000
    ensures var tail: Octets := [kind / 0x100, kind % 0x100, 0, CLASS_IN];
            var packet := before + tail + records;
            U16(packet, |before|) == kind && U16(packet, |before| + 2) == CLASS_IN
  {
    var tail: Octets := [kind / 0x100, kind % 0x100, 0, CLASS_IN];
    var packet := before + tail + records;
    assert packet[|before|] == tail[0] && packet[|before| + 1] == tail[1];
    assert packet[|before| + 2] == tail[2] && packet[|before| + 3] == tail[3];
  }

  /** A bare header in front of the copied question, with no records counted, is accepted and has no answer. */
  lemma {:induction false} EchoWithoutRecordsAccepted(name: string, kind: nat, header: Octets, identifier: nat)
    requires Encodable(name) && kind < 0x1_0000
    requires |header| == HEADER_SIZE && HeaderOk(header, identifier) && RecordCount(header) == 0
    ensures LabelsOk(WireLabels(name))
    ensures var packet, query := header + QuestionWire(name, kind), Query(Lower(Ascii(StripDots(name))) + [DOT], kind);
            && Accepted(packet, identifier, query)
            && !Answered([], query)
  {
    EchoedQuestionMatches(name, kind, header, []);
    var packet := header + QuestionWire(name, kind);
    assert packet == header + QuestionWire(name, kind) + [];
    BareQuestionAccepted(packet, header, identifier, Query(Lower(Ascii(StripDots(name))) + [DOT], kind));
  }

  /** A question that holds the octets of `piece` as one label, and nothing after it. */
  function OneLabelPacket(header: Octets, piece: Octets, kind: nat): Octets
    requires |piece| < 256 && kind < 0x1_0000
  {
    header + ([|piece|] + piece + [0]) + [kind / 0x100, kind % 0x100, 0, CLASS_IN]
  }

  /**
   The question check compares text: a response whose question holds the queried text as one label is accepted, under
   any header that matches and counts no records.
   */
  lemma DottedLabelAccepted(piece: Octets, kind: nat, header: Octets, identifier: nat)
    requires 1 <= |piece| <= MAX_LABEL && kind < 0x1_0000
    requires |header| == HEADER_SIZE && HeaderOk(header, identifier) && RecordCount(header) == 0
    ensures var packet := OneLabelPacket(header, piece, kind);
            && Accepted(packet, identifier, Query(Lower(piece) + [DOT], kind))
            && Decode(packet, HEADER_SIZE).Some? && Decode(packet, HEADER_SIZE).value.name == Lower(piece) + [DOT]
            && Expand(packet, HEADER_SIZE, 1).value.labels == [piece]
  {
    var wire: Octets := [|piece|] + piece + [0];
    var tail: Octets := [kind / 0x100, kind % 0x100, 0, CLASS_IN];
    var packet := OneLabelPacket(header, piece, kind);
    assert packet[HEADER_SIZE..HEADER_SIZE + |wire|] == wire;
    OneLabelReads(packet, HEADER_SIZE, piece);
    TailReads(header + wire, kind, []);
    assert packet == header + wire + tail + [];
    BareQuestionAccepted(packet, header, identifier, Query(Lower(piece) + [DOT], kind));
  }

  /** Its labels are the queried ones exactly when the queried text has no dot. */
  lemma {:induction false} DottedLabelConfuses(name: string, kind: nat, header: Octets, identifier: nat)
    requires Encodable(name) && 1 <= |StripDots(name)| <= MAX_LABEL && kind < 0x1_0000
    requires |header| == HEADER_SIZE && HeaderOk(header, identifier) && RecordCount(header) == 0
    ensures var packet := OneLabelPacket(header, Ascii(StripDots(name)), kind);
            && Accepted(packet, identifier, Query(Lower(Ascii(StripDots(name))) + [DOT], kind))
            && Expand(packet, HEADER_SIZE, 1).Some?
            && (LowerLabels(Expand(packet, HEADER_SIZE, 1).value.labels) ==
                LowerLabels(OctetLabels(WireLabels(name))) <==>
                '.' !in StripDots(name))
  {
    var piece := Ascii(StripDots(name));
    DottedLabelAccepted(piece, kind, header, identifier);
    TextMatchMeansLabelMatch(name, OneLabelPacket(header, piece, kind), HEADER_SIZE);
    DotsAreOctets(StripDots(name));
  }

  /** With no records counted, a packet that ends with a matching question is accepted. */
  lemma BareQuestionAccepted(packet: Octets, header: Octets, identifier: nat, query: Query)
    requires |header| == HEADER_SIZE && HeaderOk(header, identifier) && RecordCount(header) == 0
    requires header <= packet && QuestionOk(packet, query) && QuestionEnd(packet) == |packet|
    ensures Accepted(packet, identifier, query)
  {
    assert forall i :: 0 <= i < HEADER_SIZE ==> packet[i] == header[i];
    assert Fills(packet, QuestionEnd(packet), []);
  }

  lemma DotsAreOctets(text: string)
    ensures '.' in text <==> DOT in Ascii(text)
  {
    if '.' in text {
      var i :| 0 <= i < |text| && text[i] == '.';
      assert Ascii(text)[i] == DOT;
    }
    if DOT in Ascii(text) {
      var i :| 0 <= i < |text| && Ascii(text)[i] == DOT;
      assert text[i] as int == 46;
    }
  }
}
