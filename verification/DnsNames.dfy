/**
 The DNS name codec of scripts/physical-benchmark-workload.py.

 Octets are integers below 256, so the script's bit tests on a length octet are written
 as ranges: `length & 0xC0 == 0xC0` is `length >= 0xC0`, any other set bit of 0xC0 is
 `length >= 0x40`, and `((length & 63) << 8) | low` is `(length - 0xC0) * 256 + low`.
 */
module DnsNames {
  import opened Options
  import opened Sequences
  import opened Wire

  const DOT: octet := 46
  const COMPRESSED: octet := 0xC0
  const RESERVED: octet := 0x40
  const HEADER_SIZE := 12
  const MAX_LABEL := 63
  const MAX_WIRE := 255

  // ------------------------------------------------------------------ text side

  /** Python's `name.rstrip(".")`. */
  function StripDots(s: string): string {
    if s != "" && s[|s| - 1] == '.' then StripDots(s[..|s| - 1]) else s
  }

  /** What is stripped is all dots, and all the dots at the end. */
  lemma {:induction false} StripsExactly(s: string)
    ensures StripDots(s) <= s && (forall i :: |StripDots(s)| <= i < |s| ==> s[i] == '.')
    ensures StripDots(s) != "" ==> s[|StripDots(s)| - 1] != '.'
  {
    if s != "" && s[|s| - 1] == '.' {
      StripsExactly(s[..|s| - 1]);
    }
  }

  /** Python's `s.split(".")`; never empty. */
  function SplitDots(s: string): (labels: seq<string>)
    ensures |labels| >= 1
  {
    if s == "" then [""]
    else
      var rest := SplitDots(s[1..]);
      if s[0] == '.' then [""] + rest else [[s[0]] + rest[0]] + rest[1..]
  }

  function JoinDots(labels: seq<string>): string {
    if |labels| == 0 then ""
    else if |labels| == 1 then labels[0]
    else labels[0] + "." + JoinDots(labels[1..])
  }

  predicate LabelOk(piece: string) {
    1 <= |piece| <= MAX_LABEL
    && forall c :: c in piece ==> 32 < c as int < 127 && c != '\\'
  }

  predicate LabelsOk(labels: seq<string>) {
    forall i :: 0 <= i < |labels| ==> LabelOk(labels[i])
  }

  /** The text as octets; only meaningful for ASCII, other characters are folded to 0. */
  function Ascii(s: string): (b: Octets)
    ensures |b| == |s|
  {
    seq(|s|, i requires 0 <= i < |s| => if s[i] as int < 128 then s[i] as int else 0)
  }

  // ------------------------------------------------------------------ wire side

  function LabelWire(piece: string): Octets
    requires LabelOk(piece)
  {
    [|piece|] + Ascii(piece)
  }

  function LabelsWire(labels: seq<string>): Octets
    requires LabelsOk(labels)
  {
    if |labels| == 0 then [] else LabelWire(labels[0]) + LabelsWire(labels[1..])
  }

  /** What the encoder accepts: the root, or valid labels in at most 253 characters of text. */
  predicate Encodable(name: string) {
    name == "." || (LabelsOk(SplitDots(StripDots(name))) && |StripDots(name)| <= MAX_WIRE - 2)
  }

  /** The labels put on the wire; the root has none. */
  function WireLabels(name: string): seq<string> {
    if name == "." then [] else SplitDots(StripDots(name))
  }

  method EncodeName(name: string) returns (r: Option<Octets>)
    ensures r.Some? <==> Encodable(name)
    ensures r.Some? ==> r.value == LabelsWire(WireLabels(name)) + [0]
    ensures r.Some? ==> |r.value| == if name == "." then 1 else |StripDots(name)| + 2
  {
    if name == "." {
      return Some([0]);
    }
    var labels := SplitDots(StripDots(name));
    var encoded: Octets := [];
    for i := 0 to |labels|
      invariant LabelsOk(labels[..i])
      invariant encoded == LabelsWire(labels[..i])
    {
      if !LabelOk(labels[i]) {
        return None;
      }
      assert labels[..i + 1] == labels[..i] + [labels[i]];
      LabelsWireAppend(labels[..i], labels[i]);
      encoded := encoded + ([|labels[i]|] + Ascii(labels[i]));
    }
    assert labels[..|labels|] == labels;
    LabelsWireLength(labels);
    JoinSplit(StripDots(name));
    encoded := encoded + [0];
    if |encoded| > MAX_WIRE {
      return None;
    }
    return Some(encoded);
  }

  // ------------------------------------------------------------------ decoding

  /** What one position of a packet says about the name being read. */
  datatype Step = Halt | Jump(target: nat) | Take(piece: Octets, next: nat) | Reject

  function StepAt(packet: Octets, offset: nat): Step {
    if offset >= |packet| then Reject
    else if packet[offset] >= COMPRESSED then
      if offset + 1 >= |packet| then Reject
      else
        var target := (packet[offset] - COMPRESSED) * 256 + packet[offset + 1];
        if target >= offset || target < HEADER_SIZE then Reject else Jump(target)
    else if packet[offset] >= RESERVED then Reject
    else if packet[offset] == 0 then Halt
    else if offset + 1 + packet[offset] > |packet| then Reject
    else Take(packet[offset + 1..offset + 1 + packet[offset]], offset + 1 + packet[offset])
  }

  /** A complete expansion: its labels, the offset just after it in place, and how many steps it took. */
  datatype Expansion = Expansion(labels: seq<Octets>, end: nat, hops: nat)

  /**
   The reference decoder keeps no set of visited offsets. It ends because a piece
   spends wire octets and a pointer strictly lowers the offset.
   */
  function Expand(packet: Octets, offset: nat, wire: nat): Option<Expansion>
    requires wire <= MAX_WIRE
    decreases MAX_WIRE - wire, offset
  {
    match StepAt(packet, offset)
    case Reject => None
    case Halt => Some(Expansion([], offset + 1, 0))
    case Jump(target) =>
      var e :- Expand(packet, target, wire);
      Some(Expansion(e.labels, offset + 2, e.hops + 1))
    case Take(piece, next) =>
      if wire + |piece| + 1 > MAX_WIRE then None
      else
        var e :- Expand(packet, next, wire + |piece| + 1);
        Some(Expansion([piece] + e.labels, e.end, e.hops + 1))
  }

  function LowerOctet(b: octet): octet {
    if 65 <= b <= 90 then b + 32 else b
  }

  function Lower(s: Octets): (r: Octets)
    ensures |r| == |s|
  {
    seq(|s|, i requires 0 <= i < |s| => LowerOctet(s[i]))
  }

  /** The same octet, or the two cases of one letter. */
  predicate SameLetter(a: octet, b: octet) {
    || a == b
    || ('A' as int <= a <= 'Z' as int && b == a + ('a' as int - 'A' as int))
    || ('A' as int <= b <= 'Z' as int && a == b + ('a' as int - 'A' as int))
  }

  /** Two texts are lower-cased alike exactly when they differ in the case of letters only. */
  lemma LowerIgnoresCase(a: Octets, b: Octets)
    ensures Lower(a) == Lower(b) <==> |a| == |b| && forall i :: 0 <= i < |a| ==> SameLetter(a[i], b[i])
  {
    if Lower(a) == Lower(b) {
      assert |a| == |Lower(a)| == |Lower(b)| == |b|;
      forall i | 0 <= i < |a|
        ensures SameLetter(a[i], b[i])
      {
        assert LowerOctet(a[i]) == Lower(a)[i] == Lower(b)[i] == LowerOctet(b[i]);
      }
    }
  }

  function JoinOctets(labels: seq<Octets>): Octets {
    if |labels| == 0 then []
    else if |labels| == 1 then labels[0]
    else labels[0] + [DOT] + JoinOctets(labels[1..])
  }

  datatype Decoded = Decoded(name: Octets, end: nat)

  function Decode(packet: Octets, offset: nat): Option<Decoded> {
    var e :- Expand(packet, offset, 1);
    Some(Decoded(Lower(JoinOctets(e.labels)) + [DOT], e.end))
  }

  /** The script's loop, with its set of visited offsets, is the reference decoder. */
  method DecodeName(packet: Octets, start: nat) returns (r: Option<Decoded>)
    ensures r == Decode(packet, start)
  {
    var offset: nat, wire: nat := start, 1;
    var labels: seq<Octets> := [];
    var end: Option<nat> := None;
    var visited: set<nat> := {};
    ghost var wireAt: map<nat, nat> := map[];
    StartKeeps(packet, start);
    while true
      invariant Reading(packet, start, offset, wire, labels, end, wireAt)
      invariant visited == wireAt.Keys
      decreases MAX_WIRE - wire, offset
    {
      if offset >= |packet| || offset in visited {
        RevisitFails(packet, start, offset, wire, labels, end, wireAt);
        return None;
      }
      visited := visited + {offset};
      var length := packet[offset];
      if length >= COMPRESSED {
        if offset + 1 >= |packet| {
          return None;
        }
        var target := (length - COMPRESSED) * 256 + packet[offset + 1];
        if target >= offset || target < HEADER_SIZE {
          return None;
        }
        JumpKeeps(packet, start, offset, wire, labels, end, wireAt);
        wireAt := wireAt[offset := wire];
        if end.None? {
          end := Some(offset + 2);
        }
        offset := target;
        continue;
      }
      if length >= RESERVED {
        return None;
      }
      ghost var at := offset;
      offset := offset + 1;
      if length == 0 {
        HaltAnswers(packet, start, at, wire, labels, end, wireAt);
        return Some(Decoded(Lower(JoinOctets(labels)) + [DOT], if end.Some? then end.value else offset));
      }
      if offset + length > |packet| {
        return None;
      }
      if wire + length + 1 <= MAX_WIRE {
        TakeKeeps(packet, start, at, wire, labels, end, wireAt);
      }
      wireAt := wireAt[at := wire];
      labels := labels + [packet[offset..offset + length]];
      wire := wire + length + 1;
      if wire > MAX_WIRE {
        return None;
      }
      offset := offset + length;
    }
  }

  /** The answer owed at the start, once `labels` and `end` are collected. */
  ghost function Resume(packet: Octets, offset: nat, wire: nat, labels: seq<Octets>,
                        end: Option<nat>): Option<(seq<Octets>, nat)>
    requires wire <= MAX_WIRE
  {
    var e :- Expand(packet, offset, wire);
    Some((labels + e.labels, if end.Some? then end.value else e.end))
  }

  /** Every offset of `wireAt` expands too, and in more than `hops` steps. */
  ghost predicate Behind(packet: Octets, wireAt: map<nat, nat>, hops: nat) {
    forall v :: v in wireAt ==>
      wireAt[v] <= MAX_WIRE
      && Expand(packet, v, wireAt[v]).Some?
      && Expand(packet, v, wireAt[v]).value.hops > hops
  }

  /** The loop's invariant: the visited offsets are those the rest of a successful expansion has behind it. */
  ghost predicate Reading(packet: Octets, start: nat, offset: nat, wire: nat, labels: seq<Octets>, end: Option<nat>,
                          wireAt: map<nat, nat>) {
    && wire <= MAX_WIRE
    && Resume(packet, start, 1, [], None) == Resume(packet, offset, wire, labels, end)
    && (Expand(packet, offset, wire).Some? ==> Behind(packet, wireAt, Expand(packet, offset, wire).value.hops))
  }

  lemma StartKeeps(packet: Octets, start: nat)
    ensures Reading(packet, start, start, 1, [], None, map[])
  {
  }

  lemma JumpKeeps(packet: Octets, start: nat, offset: nat, wire: nat, labels: seq<Octets>, end: Option<nat>,
                  wireAt: map<nat, nat>)
    requires Reading(packet, start, offset, wire, labels, end, wireAt)
    requires StepAt(packet, offset).Jump?
    ensures Reading(packet, start, StepAt(packet, offset).target, wire, labels, Some(end.GetOr(offset + 2)),
                    wireAt[offset := wire])
  {
  }

  lemma TakeKeeps(packet: Octets, start: nat, offset: nat, wire: nat, labels: seq<Octets>, end: Option<nat>,
                  wireAt: map<nat, nat>)
    requires Reading(packet, start, offset, wire, labels, end, wireAt)
    requires StepAt(packet, offset).Take?
    requires wire + |StepAt(packet, offset).piece| + 1 <= MAX_WIRE
    ensures var step := StepAt(packet, offset);
            Reading(packet, start, step.next, wire + |step.piece| + 1, labels + [step.piece], end,
                    wireAt[offset := wire])
  {
    var step := StepAt(packet, offset);
    var e := Expand(packet, step.next, wire + |step.piece| + 1);
    if e.Some? {
      assert labels + ([step.piece] + e.value.labels) == labels + [step.piece] + e.value.labels;
    }
  }

  lemma {:induction false} HaltAnswers(packet: Octets, start: nat, offset: nat, wire: nat, labels: seq<Octets>,
                                       end: Option<nat>, wireAt: map<nat, nat>)
    requires Reading(packet, start, offset, wire, labels, end, wireAt)
    requires StepAt(packet, offset).Halt?
    ensures Decode(packet, start) == Some(Decoded(Lower(JoinOctets(labels)) + [DOT], end.GetOr(offset + 1)))
  {
    var e := Expand(packet, start, 1).value;
    assert [] + e.labels == e.labels && labels + [] == labels;
  }

  /** An offset met twice cannot lead to the end of a name. */
  lemma {:induction false} RevisitFails(packet: Octets, start: nat, offset: nat, wire: nat, labels: seq<Octets>,
                                        end: Option<nat>, wireAt: map<nat, nat>)
    requires Reading(packet, start, offset, wire, labels, end, wireAt)
    ensures offset in wireAt ==> Expand(packet, start, 1).None?
  {
    if offset in wireAt && Expand(packet, offset, wire).Some? {
      ExpandIgnoresWire(packet, offset, wire, wireAt[offset]);
      assert false;
    }
  }

  /** Where two expansions of one offset succeed they are the same: a step depends on the offset alone. */
  lemma {:induction false} ExpandIgnoresWire(packet: Octets, offset: nat, w1: nat, w2: nat)
    requires w1 <= MAX_WIRE && w2 <= MAX_WIRE
    requires Expand(packet, offset, w1).Some? && Expand(packet, offset, w2).Some?
    ensures Expand(packet, offset, w1) == Expand(packet, offset, w2)
    decreases MAX_WIRE - w1, offset
  {
    match StepAt(packet, offset)
    case Jump(target) => ExpandIgnoresWire(packet, target, w1, w2);
    case Take(piece, next) => ExpandIgnoresWire(packet, next, w1 + |piece| + 1, w2 + |piece| + 1);
    case _ =>
  }

  /** A name read in place takes at least one octet and stays inside the packet. */
  lemma {:induction false} ExpandEnd(packet: Octets, offset: nat, wire: nat)
    requires wire <= MAX_WIRE
    ensures Expand(packet, offset, wire).Some? ==> offset < Expand(packet, offset, wire).value.end <= |packet|
    decreases MAX_WIRE - wire, offset
  {
    match StepAt(packet, offset)
    case Take(piece, next) =>
      if wire + |piece| + 1 <= MAX_WIRE {
        ExpandEnd(packet, next, wire + |piece| + 1);
      }
    case _ =>
  }

  // ------------------------------------------------------------------ what the decoder accepts

  /** `path` is a chain of steps: each offset follows from the one before it. */
  ghost predicate Follows(packet: Octets, path: seq<nat>) {
    forall i: nat :: i + 1 < |path| ==> LeadsAt(packet, path, i)
  }

  ghost predicate LeadsAt(packet: Octets, path: seq<nat>, i: nat)
    requires i + 1 < |path|
  {
    Leads(packet, path[i], path[i + 1])
  }

  ghost predicate Leads(packet: Octets, here: nat, there: nat) {
    match StepAt(packet, here)
    case Jump(target) => there == target
    case Take(_, next) => there == next
    case _ => false
  }

  /** `path` reads a whole name from `start` to its zero octet. */
  ghost predicate Complete(packet: Octets, start: nat, path: seq<nat>) {
    |path| > 0 && path[0] == start && Follows(packet, path) && StepAt(packet, path[|path| - 1]).Halt?
  }

  ghost function PathLabels(packet: Octets, path: seq<nat>): seq<Octets> {
    if |path| == 0 then []
    else
      var rest := PathLabels(packet, path[1..]);
      match StepAt(packet, path[0])
      case Take(piece, _) => [piece] + rest
      case _ => rest
  }

  /** The offset after the name in place: past the first pointer of the chain, or past its zero octet. */
  ghost function PathEnd(packet: Octets, path: seq<nat>): nat
    requires |path| > 0
  {
    match StepAt(packet, path[0])
    case Jump(_) => path[0] + 2
    case Take(_, next) => if |path| > 1 then PathEnd(packet, path[1..]) else next
    case _ => path[0] + 1
  }

  /** Octets the labels take when written out without compression, the final zero included. */
  ghost function WireSize(labels: seq<Octets>): nat {
    if |labels| == 0 then 1 else |labels[0]| + 1 + WireSize(labels[1..])
  }

  /** From one offset there is at most one complete chain. */
  lemma {:induction false} CompleteUnique(packet: Octets, start: nat, p: seq<nat>, q: seq<nat>)
    requires Complete(packet, start, p) && Complete(packet, start, q)
    ensures p == q
    decreases |p|
  {
    assert |p| > 1 ==> LeadsAt(packet, p, 0);
    assert |q| > 1 ==> LeadsAt(packet, q, 0);
    if |p| > 1 && |q| > 1 {
      CompleteTail(packet, start, p);
      CompleteTail(packet, start, q);
      CompleteUnique(packet, p[1], p[1..], q[1..]);
      assert p == [p[0]] + p[1..] && q == [q[0]] + q[1..];
    }
  }

  lemma CompleteTail(packet: Octets, start: nat, p: seq<nat>)
    requires Complete(packet, start, p) && |p| > 1
    ensures Complete(packet, p[1], p[1..])
  {
    var t := p[1..];
    forall i: nat | i + 1 < |t|
      ensures LeadsAt(packet, t, i)
    {
      assert LeadsAt(packet, p, i + 1);
    }
  }

  /**
   The visited check loses nothing: a chain that comes back to an offset never ends,
   so no complete name passes through that offset.
   */
  lemma RevisitNeverEnds(packet: Octets, path: seq<nat>, i: nat, j: nat, rest: seq<nat>)
    requires Follows(packet, path)
    requires i < j < |path| && path[i] == path[j]
    ensures !Complete(packet, path[i], rest)
  {
    if Complete(packet, path[i], rest) {
      var longer := path[i..j] + rest;
      forall k: nat | k + 1 < |longer|
        ensures LeadsAt(packet, longer, k)
      {
        if k < j - i {
          assert LeadsAt(packet, path, i + k);
        } else {
          assert LeadsAt(packet, rest, k - (j - i));
        }
      }
      CompleteUnique(packet, path[i], rest, longer);
      assert false;
    }
  }

  lemma {:induction false} ExpandSound(packet: Octets, offset: nat, wire: nat) returns (path: seq<nat>)
    requires wire <= MAX_WIRE
    requires Expand(packet, offset, wire).Some?
    ensures Complete(packet, offset, path)
    ensures PathLabels(packet, path) == Expand(packet, offset, wire).value.labels
    ensures wire - 1 + WireSize(PathLabels(packet, path)) <= MAX_WIRE
    decreases MAX_WIRE - wire, offset
  {
    var step := StepAt(packet, offset);
    if step.Halt? {
      path := [offset];
    } else {
      var next := if step.Jump? then step.target else step.next;
      var rest := ExpandSound(packet, next, if step.Jump? then wire else wire + |step.piece| + 1);
      path := [offset] + rest;
      assert path[1..] == rest;
      FollowsCons(packet, offset, rest);
      if step.Take? {
        assert PathLabels(packet, path)[1..] == PathLabels(packet, rest);
      }
    }
  }

  lemma FollowsCons(packet: Octets, offset: nat, rest: seq<nat>)
    requires |rest| > 0 && Follows(packet, rest) && Leads(packet, offset, rest[0])
    ensures Follows(packet, [offset] + rest)
  {
    var path := [offset] + rest;
    forall i: nat | i + 1 < |path|
      ensures LeadsAt(packet, path, i)
    {
      if i > 0 {
        assert LeadsAt(packet, rest, i - 1);
      }
    }
  }

  lemma {:induction false} PathTakes(packet: Octets, path: seq<nat>)
    requires |path| > 0 && StepAt(packet, path[0]).Take?
    ensures var piece, rest := StepAt(packet, path[0]).piece, PathLabels(packet, path[1..]);
            && PathLabels(packet, path) == [piece] + rest
            && WireSize(PathLabels(packet, path)) == |piece| + 1 + WireSize(rest)
    ensures WireSize(PathLabels(packet, path[1..])) >= 1
  {
    assert PathLabels(packet, path)[1..] == PathLabels(packet, path[1..]);
  }

  lemma {:induction false} ExpandComplete(packet: Octets, offset: nat, wire: nat, path: seq<nat>)
    requires wire <= MAX_WIRE
    requires Complete(packet, offset, path)
    requires wire - 1 + WireSize(PathLabels(packet, path)) <= MAX_WIRE
    ensures Expand(packet, offset, wire).Some?
    ensures Expand(packet, offset, wire).value.labels == PathLabels(packet, path)
    decreases |path|
  {
    if |path| > 1 {
      assert LeadsAt(packet, path, 0);
      CompleteTail(packet, offset, path);
      var step := StepAt(packet, offset);
      if step.Take? {
        PathTakes(packet, path);
        ExpandComplete(packet, path[1], wire + |step.piece| + 1, path[1..]);
      } else {
        ExpandComplete(packet, path[1], wire, path[1..]);
      }
    } else {
      assert path[1..] == [];
    }
  }

  lemma {:induction false} ExpandEndsAt(packet: Octets, offset: nat, wire: nat, path: seq<nat>)
    requires wire <= MAX_WIRE && Expand(packet, offset, wire).Some?
    requires Complete(packet, offset, path)
    ensures Expand(packet, offset, wire).value.end == PathEnd(packet, path)
    decreases |path|
  {
    var step := StepAt(packet, offset);
    if |path| > 1 && step.Take? {
      assert LeadsAt(packet, path, 0);
      CompleteTail(packet, offset, path);
      ExpandEndsAt(packet, path[1], wire + |step.piece| + 1, path[1..]);
    }
  }

  /**
   Decoding succeeds exactly when some chain of labels and backward pointers reaches a
   zero octet and the labels on it fit in 255 octets; the name is those labels, and reading
   resumes after the first pointer.
   */
  lemma {:induction false} DecodeExact(packet: Octets, offset: nat)
    ensures Decode(packet, offset).Some? <==>
            exists path :: Complete(packet, offset, path) && WireSize(PathLabels(packet, path)) <= MAX_WIRE
    ensures forall path :: Complete(packet, offset, path) && WireSize(PathLabels(packet, path)) <= MAX_WIRE ==>
              Decode(packet, offset).value ==
              Decoded(Lower(JoinOctets(PathLabels(packet, path))) + [DOT], PathEnd(packet, path))
  {
    if Expand(packet, offset, 1).Some? {
      var path := ExpandSound(packet, offset, 1);
    }
    forall path | Complete(packet, offset, path) && WireSize(PathLabels(packet, path)) <= MAX_WIRE
      ensures Expand(packet, offset, 1).Some?
      ensures Expand(packet, offset, 1).value.labels == PathLabels(packet, path)
      ensures Expand(packet, offset, 1).value.end == PathEnd(packet, path)
    {
      ExpandComplete(packet, offset, 1, path);
      ExpandEndsAt(packet, offset, 1, path);
    }
  }

  // ------------------------------------------------------------------ round trips

  /** The octets of each label. */
  function OctetLabels(labels: seq<string>): (r: seq<Octets>)
    ensures |r| == |labels|
  {
    seq(|labels|, i requires 0 <= i < |labels| => Ascii(labels[i]))
  }

  /** `part` occurs in `whole` at `offset`. */
  predicate OccursAt(whole: Octets, offset: nat, part: Octets) {
    offset + |part| <= |whole| && whole[offset..offset + |part|] == part
  }

  lemma OccursParts(whole: Octets, offset: nat, a: Octets, b: Octets)
    requires OccursAt(whole, offset, a + b)
    ensures OccursAt(whole, offset, a) && OccursAt(whole, offset + |a|, b)
  {
    var slice := whole[offset..offset + |a| + |b|];
    assert whole[offset..offset + |a|] == slice[..|a|] == a;
    assert whole[offset + |a|..offset + |a| + |b|] == slice[|a|..] == b;
  }

  lemma StepAtLabel(packet: Octets, offset: nat, piece: string)
    requires LabelOk(piece)
    requires OccursAt(packet, offset, LabelWire(piece))
    ensures StepAt(packet, offset) == Take(Ascii(piece), offset + 1 + |piece|)
  {
    OccursParts(packet, offset, [|piece|], Ascii(piece));
    assert packet[offset] == packet[offset..offset + 1][0] == |piece|;
  }

  /** The steps from `offset` take exactly these labels and then halt. */
  predicate Reads(packet: Octets, offset: nat, labels: seq<string>)
    decreases |labels|
  {
    if |labels| == 0 then StepAt(packet, offset) == Halt
    else
      var next := offset + 1 + |labels[0]|;
      StepAt(packet, offset) == Take(Ascii(labels[0]), next) && Reads(packet, next, labels[1..])
  }

  lemma {:induction false} WireReads(packet: Octets, offset: nat, labels: seq<string>)
    requires LabelsOk(labels)
    requires OccursAt(packet, offset, LabelsWire(labels) + [0])
    ensures Reads(packet, offset, labels)
    decreases |labels|
  {
    if |labels| == 0 {
      assert packet[offset] == packet[offset..offset + 1][0] == 0;
    } else {
      var first, tail := LabelWire(labels[0]), LabelsWire(labels[1..]);
      ConcatAssociates(first, tail, [0]);
      OccursParts(packet, offset, first, tail + [0]);
      StepAtLabel(packet, offset, labels[0]);
      WireReads(packet, offset + |first|, labels[1..]);
    }
  }

  lemma {:induction false} ExpandReads(packet: Octets, offset: nat, labels: seq<string>, wire: nat)
    requires LabelsOk(labels) && Reads(packet, offset, labels)
    requires 1 <= wire && wire + |LabelsWire(labels)| <= MAX_WIRE
    ensures Expand(packet, offset, wire).Some?
    ensures Expand(packet, offset, wire).value.labels == OctetLabels(labels)
    ensures Expand(packet, offset, wire).value.end == offset + |LabelsWire(labels)| + 1
    decreases |labels|
  {
    if |labels| > 0 {
      var size := 1 + |labels[0]|;
      ExpandReads(packet, offset + size, labels[1..], wire + size);
      assert OctetLabels(labels) == [Ascii(labels[0])] + OctetLabels(labels[1..]);
    }
  }

  lemma {:induction false} JoinAscii(labels: seq<string>)
    ensures JoinOctets(OctetLabels(labels)) == Ascii(JoinDots(labels))
  {
    if |labels| > 1 {
      JoinAscii(labels[1..]);
      assert OctetLabels(labels)[1..] == OctetLabels(labels[1..]);
    }
  }

  /** An encoded name decodes, where it lies, to its lower-cased text with one trailing dot. */
  lemma {:induction false} EncodedDecodes(packet: Octets, offset: nat, name: string)
    requires Encodable(name) && LabelsOk(WireLabels(name))
    requires OccursAt(packet, offset, LabelsWire(WireLabels(name)) + [0])
    ensures var end := offset + |LabelsWire(WireLabels(name)) + [0]|;
            Decode(packet, offset) == Some(Decoded(Lower(Ascii(StripDots(name))) + [DOT], end))
  {
    var labels := WireLabels(name);
    WireFits(name);
    WireReads(packet, offset, labels);
    ExpandReads(packet, offset, labels, 1);
    JoinAscii(labels);
    assert JoinDots(labels) == StripDots(name);
  }

  lemma {:induction false} WireFits(name: string)
    requires Encodable(name)
    ensures LabelsOk(WireLabels(name)) && 1 + |LabelsWire(WireLabels(name))| <= MAX_WIRE
    ensures JoinDots(WireLabels(name)) == StripDots(name)
  {
    if name != "." {
      JoinSplit(StripDots(name));
      LabelsWireLength(WireLabels(name));
    } else {
      assert StripDots(name) == "";
    }
  }

  /** So it does whatever surrounds it. */
  lemma {:induction false} RoundTrip(name: string, prefix: Octets, suffix: Octets)
    requires Encodable(name)
    ensures LabelsOk(WireLabels(name))
    ensures var wire := LabelsWire(WireLabels(name)) + [0];
            && Decode(prefix + wire + suffix, |prefix|).Some?
            && Decode(prefix + wire + suffix, |prefix|).value.name == Lower(Ascii(StripDots(name))) + [DOT]
            && Decode(prefix + wire + suffix, |prefix|).value.end == |prefix| + |wire|
  {
    WireFits(name);
    EncodedDecodes(prefix + (LabelsWire(WireLabels(name)) + [0]) + suffix, |prefix|, name);
  }

  // ------------------------------------------------------------------ text against labels

  predicate DotFree(labels: seq<Octets>) {
    forall i :: 0 <= i < |labels| ==> DOT !in labels[i]
  }

  predicate NoneEmpty(labels: seq<Octets>) {
    forall i :: 0 <= i < |labels| ==> labels[i] != []
  }

  function LowerLabels(labels: seq<Octets>): (r: seq<Octets>)
    ensures |r| == |labels|
  {
    seq(|labels|, i requires 0 <= i < |labels| => Lower(labels[i]))
  }

  lemma {:induction false} LowerJoin(labels: seq<Octets>)
    ensures Lower(JoinOctets(labels)) == JoinOctets(LowerLabels(labels))
  {
    if |labels| > 1 {
      LowerJoin(labels[1..]);
      assert LowerLabels(labels)[1..] == LowerLabels(labels[1..]);
      var head, tail := labels[0] + [DOT], JoinOctets(labels[1..]);
      assert Lower(head) == Lower(labels[0]) + [DOT];
      assert Lower(head + tail) == Lower(head) + Lower(tail);
    }
  }

  /** The first label ends at the first dot of the text, or at its end. */
  lemma {:induction false} JoinHead(labels: seq<Octets>)
    requires |labels| > 0 && DotFree(labels)
    ensures var text, n := JoinOctets(labels), |labels[0]|;
            && n <= |text|
            && text[..n] == labels[0]
            && DOT !in text[..n]
            && (|labels| == 1 ==> n == |text|)
            && (|labels| > 1 ==> n < |text| && text[n] == DOT && text[n + 1..] == JoinOctets(labels[1..]))
  {
  }

  /** Dot-free labels can be read back from their dotted text. */
  lemma {:induction false} JoinInjective(a: seq<Octets>, b: seq<Octets>)
    requires DotFree(a) && NoneEmpty(a) && DotFree(b) && NoneEmpty(b)
    requires JoinOctets(a) == JoinOctets(b)
    ensures a == b
  {
    if |a| > 0 && |b| > 0 {
      JoinHead(a);
      JoinHead(b);
      assert |a[0]| == |b[0]|;
      if |a| > 1 && |b| > 1 {
        JoinInjective(a[1..], b[1..]);
      }
      assert a == [a[0]] + a[1..] && b == [b[0]] + b[1..];
    }
  }

  lemma {:induction false} ExpandNoneEmpty(packet: Octets, offset: nat, wire: nat)
    requires wire <= MAX_WIRE
    ensures Expand(packet, offset, wire).Some? ==> NoneEmpty(Expand(packet, offset, wire).value.labels)
    decreases MAX_WIRE - wire, offset
  {
    match StepAt(packet, offset)
    case Jump(target) => ExpandNoneEmpty(packet, target, wire);
    case Take(piece, next) =>
      if wire + |piece| + 1 <= MAX_WIRE {
        ExpandNoneEmpty(packet, next, wire + |piece| + 1);
      }
    case _ =>
  }

  /**
   Comparing decoded text with the queried text compares labels, ignoring case, exactly
   when no received label holds a dot of its own.
   */
  lemma {:induction false} TextMatchMeansLabelMatch(name: string, packet: Octets, offset: nat)
    requires Encodable(name)
    requires Decode(packet, offset).Some?
    requires Decode(packet, offset).value.name == Lower(Ascii(StripDots(name))) + [DOT]
    ensures var received := Expand(packet, offset, 1).value.labels;
            LowerLabels(received) == LowerLabels(OctetLabels(WireLabels(name))) <==> DotFree(received)
  {
    var received, queried := Expand(packet, offset, 1).value.labels, OctetLabels(WireLabels(name));
    JoinSplit(StripDots(name));
    JoinAscii(WireLabels(name));
    ExpandNoneEmpty(packet, offset, 1);
    LowerJoin(received);
    LowerJoin(queried);
    LowerKeepsShape(received);
    LowerKeepsShape(queried);
    var text := Lower(Ascii(StripDots(name)));
    assert Lower(JoinOctets(received)) == (Lower(JoinOctets(received)) + [DOT])[..|text|] == text;
    WireLabelsShape(name);
    if DotFree(received) {
      JoinInjective(LowerLabels(received), LowerLabels(queried));
    }
  }

  lemma WireLabelsShape(name: string)
    requires Encodable(name)
    ensures DotFree(OctetLabels(WireLabels(name))) && NoneEmpty(OctetLabels(WireLabels(name)))
  {
    JoinSplit(StripDots(name));
    var labels, queried := WireLabels(name), OctetLabels(WireLabels(name));
    forall i | 0 <= i < |queried|
      ensures DOT !in queried[i]
    {
      assert LabelOk(labels[i]);
      forall k | 0 <= k < |queried[i]|
        ensures queried[i][k] != DOT
      {
        assert labels[i][k] in labels[i];
      }
    }
  }

  lemma LowerKeepsShape(labels: seq<Octets>)
    ensures DotFree(LowerLabels(labels)) == DotFree(labels)
    ensures NoneEmpty(LowerLabels(labels)) == NoneEmpty(labels)
  {
    forall i | 0 <= i < |labels|
      ensures DOT in LowerLabels(labels)[i] <==> DOT in labels[i]
    {
      var plain, lower := labels[i], Lower(labels[i]);
      if DOT in plain {
        var k :| 0 <= k < |plain| && plain[k] == DOT;
        assert lower[k] == DOT;
      }
      if DOT in lower {
        var k :| 0 <= k < |lower| && lower[k] == DOT;
        assert plain[k] == DOT;
      }
    }
    forall i | 0 <= i < |labels|
      ensures LowerLabels(labels)[i] != [] <==> labels[i] != []
    {
    }
  }

  /** Any 1 to 63 octets can be received as one label, dots and all. */
  lemma {:induction false} OneLabelReads(packet: Octets, at: nat, piece: Octets)
    requires 1 <= |piece| <= MAX_LABEL && OccursAt(packet, at, [|piece|] + piece + [0])
    ensures Expand(packet, at, 1) == Some(Expansion([piece], at + |piece| + 2, 1))
    ensures Decode(packet, at) == Some(Decoded(Lower(piece) + [DOT], at + |piece| + 2))
  {
    OneLabelSteps(packet, at, piece);
    OneLabelExpands(packet, at, piece);
  }

  lemma OneLabelSteps(packet: Octets, at: nat, piece: Octets)
    requires 1 <= |piece| <= MAX_LABEL && OccursAt(packet, at, [|piece|] + piece + [0])
    ensures StepAt(packet, at) == Take(piece, at + 1 + |piece|) && StepAt(packet, at + 1 + |piece|) == Halt
  {
    var wire: Octets := [|piece|] + piece + [0];
    var here := packet[at..at + |wire|];
    assert here[0] == packet[at] && here[1 + |piece|] == packet[at + 1 + |piece|];
    SliceOfSlice(packet, at, at + |wire|, 1, 1 + |piece|);
    assert wire[1..1 + |piece|] == piece;
  }

  lemma OneLabelExpands(packet: Octets, at: nat, piece: Octets)
    requires 1 <= |piece| <= MAX_LABEL && StepAt(packet, at) == Take(piece, at + 1 + |piece|)
    requires StepAt(packet, at + 1 + |piece|) == Halt
    ensures Expand(packet, at, 1) == Some(Expansion([piece], at + |piece| + 2, 1))
  {
    assert Expand(packet, at + 1 + |piece|, 2 + |piece|) == Some(Expansion([], at + |piece| + 2, 0));
    assert [piece] + [] == [piece];
  }

  // ------------------------------------------------------------------ helpers

  lemma {:induction false} LabelsWireAppend(labels: seq<string>, piece: string)
    requires LabelsOk(labels) && LabelOk(piece)
    ensures LabelsOk(labels + [piece])
    ensures LabelsWire(labels + [piece]) == LabelsWire(labels) + LabelWire(piece)
  {
    if |labels| == 0 {
      assert labels + [piece] == [piece];
    } else {
      LabelsWireAppend(labels[1..], piece);
      var more := labels + [piece];
      assert more[0] == labels[0] && more[1..] == labels[1..] + [piece];
      ConcatAssociates(LabelWire(labels[0]), LabelsWire(labels[1..]), LabelWire(piece));
    }
  }

  /** Splitting loses nothing and leaves no dot inside a label. */
  lemma {:induction false} JoinSplit(s: string)
    ensures JoinDots(SplitDots(s)) == s
    ensures forall i :: 0 <= i < |SplitDots(s)| ==> '.' !in SplitDots(s)[i]
  {
    if s != "" {
      JoinSplit(s[1..]);
      var rest := SplitDots(s[1..]);
      assert s == [s[0]] + s[1..];
      if s[0] == '.' {
        assert ([""] + rest)[1..] == rest;
      } else if |rest| > 1 {
        assert SplitDots(s)[1..] == rest[1..];
      }
    }
  }

  lemma {:induction false} LabelsWireLength(labels: seq<string>)
    requires LabelsOk(labels) && |labels| >= 1
    ensures |LabelsWire(labels)| == |JoinDots(labels)| + 1
  {
    if |labels| > 1 {
      LabelsWireLength(labels[1..]);
    }
  }
}
