/**
 How names lie in a packet, on octets alone: labels, backward pointers and a zero octet. Decoding finds exactly the
 names that lie there; the grammar says nothing of the decoder.
 */
module NameForms {
  import opened DnsNames
  import opened Options
  import opened Sequences
  import opened Wire

  /** A name as it lies in a packet; a pointer goes on with the name at its target. */
  datatype Form = Root | Piece(octets: Octets, rest: Form) | Pointer(target: nat, rest: Form)

  /** The two octets of a pointer. */
  function PointerWire(target: nat): Octets
    requires target < 0x4000
  {
    [0xC0 + target / 0x100, target % 0x100]
  }

  /** The form lies in the packet at `offset`: every pointer goes back, but not into the header. */
  predicate LiesAt(packet: Octets, offset: nat, form: Form)
    decreases form
  {
    match form
    case Root => OccursAt(packet, offset, [0])
    case Piece(octets, rest) =>
      && 1 <= |octets| <= 63
      && OccursAt(packet, offset, [|octets|] + octets) && LiesAt(packet, offset + 1 + |octets|, rest)
    case Pointer(target, rest) =>
      && 12 <= target < offset && target < 0x4000
      && OccursAt(packet, offset, PointerWire(target)) && LiesAt(packet, target, rest)
  }

  function Labels(form: Form): seq<Octets> {
    match form
    case Root => []
    case Piece(octets, rest) => [octets] + Labels(rest)
    case Pointer(_, rest) => Labels(rest)
  }

  /** The octets of the name written out: a length octet for each label, and the zero octet. */
  function Size(form: Form): (size: nat)
    ensures size >= 1
  {
    match form
    case Root => 1
    case Piece(octets, rest) => |octets| + 1 + Size(rest)
    case Pointer(_, rest) => Size(rest)
  }

  /** The offset after the name in place: a pointer is its last part there. */
  function EndOf(form: Form, offset: nat): nat {
    match form
    case Root => offset + 1
    case Piece(octets, rest) => EndOf(rest, offset + 1 + |octets|)
    case Pointer(_, _) => offset + 2
  }

  // ------------------------------------------------------------------ one step against its octets

  lemma OctetOf(packet: Octets, offset: nat, part: Octets, i: nat)
    requires OccursAt(packet, offset, part) && i < |part|
    ensures packet[offset + i] == part[i]
  {
    assert packet[offset + i] == packet[offset..offset + |part|][i];
  }

  lemma RootSteps(packet: Octets, offset: nat)
    ensures StepAt(packet, offset).Halt? <==> OccursAt(packet, offset, [0])
  {
    if OccursAt(packet, offset, [0]) {
      OctetOf(packet, offset, [0], 0);
    }
    if StepAt(packet, offset).Halt? {
      assert packet[offset..offset + 1] == [packet[offset]];
    }
  }

  lemma PieceSteps(packet: Octets, offset: nat, octets: Octets)
    requires 1 <= |octets| <= 63
    ensures StepAt(packet, offset) == Take(octets, offset + 1 + |octets|) <==>
            OccursAt(packet, offset, [|octets|] + octets)
  {
    var wire: Octets := [|octets|] + octets;
    var end := offset + 1 + |octets|;
    if OccursAt(packet, offset, wire) {
      OctetOf(packet, offset, wire, 0);
      SliceOfSlice(packet, offset, end, 1, |wire|);
      assert wire[1..] == octets;
    }
    if StepAt(packet, offset) == Take(octets, end) {
      assert packet[offset] == |octets|;
      assert packet[offset..end] == [packet[offset]] + packet[offset + 1..end];
    }
  }

  lemma PointerSteps(packet: Octets, offset: nat, target: nat)
    ensures StepAt(packet, offset) == Jump(target) <==>
            12 <= target < offset && target < 0x4000 && OccursAt(packet, offset, PointerWire(target))
  {
    if target < 0x4000 && OccursAt(packet, offset, PointerWire(target)) {
      OctetOf(packet, offset, PointerWire(target), 0);
      OctetOf(packet, offset, PointerWire(target), 1);
    }
    if StepAt(packet, offset) == Jump(target) {
      assert packet[offset..offset + 2] == [packet[offset], packet[offset + 1]];
    }
  }

  // ------------------------------------------------------------------ decoding

  /** The decoder's steps from `offset` follow the form. */
  predicate StepsAs(packet: Octets, offset: nat, form: Form)
    decreases form
  {
    match form
    case Root => StepAt(packet, offset) == Halt
    case Piece(octets, rest) =>
      && 1 <= |octets| <= 63
      && StepAt(packet, offset) == Take(octets, offset + 1 + |octets|)
      && StepsAs(packet, offset + 1 + |octets|, rest)
    case Pointer(target, rest) => StepAt(packet, offset) == Jump(target) && StepsAs(packet, target, rest)
  }

  lemma {:induction false} LiesExactly(packet: Octets, offset: nat, form: Form)
    ensures LiesAt(packet, offset, form) <==> StepsAs(packet, offset, form)
    decreases form
  {
    match form
    case Root => RootSteps(packet, offset);
    case Piece(octets, rest) =>
      if 1 <= |octets| <= 63 {
        PieceSteps(packet, offset, octets);
      }
      LiesExactly(packet, offset + 1 + |octets|, rest);
    case Pointer(target, rest) =>
      PointerSteps(packet, offset, target);
      LiesExactly(packet, target, rest);
  }

  /** Steps that follow a form are what the decoder reads, if it is not too long. */
  lemma {:induction false} FormExpands(packet: Octets, offset: nat, form: Form, wire: nat)
    requires StepsAs(packet, offset, form) && 1 <= wire <= MAX_WIRE
    ensures var e := Expand(packet, offset, wire);
            && (e.Some? <==> wire - 1 + Size(form) <= 255)
            && (e.Some? ==> e.value.labels == Labels(form) && e.value.end == EndOf(form, offset))
    decreases form
  {
    match form
    case Root =>
    case Piece(octets, rest) =>
      if wire + |octets| + 1 <= MAX_WIRE {
        FormExpands(packet, offset + 1 + |octets|, rest, wire + |octets| + 1);
      }
    case Pointer(target, rest) => FormExpands(packet, target, rest, wire);
  }

  /** Whatever the decoder reads follows a form. */
  lemma {:induction false} ExpandedSteps(packet: Octets, offset: nat, wire: nat) returns (form: Form)
    requires 1 <= wire <= MAX_WIRE && Expand(packet, offset, wire).Some?
    ensures StepsAs(packet, offset, form)
    decreases MAX_WIRE - wire, offset
  {
    match StepAt(packet, offset)
    case Halt => form := Root;
    case Jump(target) =>
      var rest := ExpandedSteps(packet, target, wire);
      form := Pointer(target, rest);
    case Take(octets, next) =>
      var rest := ExpandedSteps(packet, next, wire + |octets| + 1);
      form := Piece(octets, rest);
  }

  /** The form lies in the packet and says this name, ending here. */
  ghost predicate Says(packet: Octets, offset: nat, form: Form, name: Octets, end: nat) {
    && LiesAt(packet, offset, form) && Size(form) <= 255
    && name == Lower(JoinOctets(Labels(form))) + [DOT] && end == EndOf(form, offset)
  }

  /** Decoding gives exactly the names of at most 255 octets that lie in the packet. */
  lemma DecodesWhatLies(packet: Octets, offset: nat, name: Octets, end: nat)
    ensures Decode(packet, offset) == Some(Decoded(name, end)) <==>
            exists form :: Says(packet, offset, form, name, end)
  {
    if Decode(packet, offset) == Some(Decoded(name, end)) {
      var form := ExpandedSteps(packet, offset, 1);
      FormExpands(packet, offset, form, 1);
      LiesExactly(packet, offset, form);
      assert Says(packet, offset, form, name, end);
    }
    if form :| Says(packet, offset, form, name, end) {
      LiesExactly(packet, offset, form);
      FormExpands(packet, offset, form, 1);
    }
  }

  /** One form at most lies at an offset. */
  lemma {:induction false} FormUnique(packet: Octets, offset: nat, a: Form, b: Form)
    requires LiesAt(packet, offset, a) && LiesAt(packet, offset, b)
    ensures a == b
  {
    LiesExactly(packet, offset, a);
    LiesExactly(packet, offset, b);
    StepsUnique(packet, offset, a, b);
  }

  lemma {:induction false} StepsUnique(packet: Octets, offset: nat, a: Form, b: Form)
    requires StepsAs(packet, offset, a) && StepsAs(packet, offset, b)
    ensures a == b
    decreases a
  {
    match a
    case Root =>
    case Piece(octets, rest) => StepsUnique(packet, offset + 1 + |octets|, rest, b.rest);
    case Pointer(target, rest) => StepsUnique(packet, target, rest, b.rest);
  }

  // ------------------------------------------------------------------ pointers

  /** A pointer that goes back stands for the name at its target. */
  lemma PointerMeansTarget(packet: Octets, offset: nat, target: nat)
    requires 12 <= target < offset && target < 0x4000 && OccursAt(packet, offset, PointerWire(target))
    ensures Decode(packet, offset).Some? <==> Decode(packet, target).Some?
    ensures Decode(packet, offset).Some? ==>
              Decode(packet, offset) == Some(Decoded(Decode(packet, target).value.name, offset + 2))
  {
    PointerSteps(packet, offset, target);
  }

  /** Any other pointer, a length octet between the two kinds, and a label that is cut off are refused. */
  lemma MalformedRefused(packet: Octets, offset: nat)
    requires
      || offset >= |packet|
      || 0x40 <= packet[offset] < 0xC0
      || (packet[offset] < 0x40 && offset + packet[offset] >= |packet|)
      || (packet[offset] >= 0xC0 && offset + 1 >= |packet|)
      || exists target: nat ::
           target < 0x4000 && OccursAt(packet, offset, PointerWire(target)) && (target < 12 || target >= offset)
    ensures Decode(packet, offset) == None
  {
    if target: nat :|
        target < 0x4000 && OccursAt(packet, offset, PointerWire(target)) && (target < 12 || target >= offset) {
      OctetOf(packet, offset, PointerWire(target), 0);
      OctetOf(packet, offset, PointerWire(target), 1);
    }
  }

  /** Labels in front of a name that lies in the packet. */
  function Prepend(labels: seq<string>, form: Form): Form {
    if |labels| == 0 then form else Piece(Ascii(labels[0]), Prepend(labels[1..], form))
  }

  /** The steps go over the labels one by one. */
  predicate StepsOver(packet: Octets, offset: nat, labels: seq<string>)
    decreases |labels|
  {
    |labels| > 0 ==>
      var next := offset + 1 + |labels[0]|;
      StepAt(packet, offset) == Take(Ascii(labels[0]), next) && StepsOver(packet, next, labels[1..])
  }

  lemma {:induction false} LabelsStep(packet: Octets, offset: nat, labels: seq<string>)
    requires LabelsOk(labels) && OccursAt(packet, offset, LabelsWire(labels))
    ensures StepsOver(packet, offset, labels)
    decreases |labels|
  {
    if |labels| > 0 {
      var first, tail := LabelWire(labels[0]), LabelsWire(labels[1..]);
      OccursParts(packet, offset, first, tail);
      StepAtLabel(packet, offset, labels[0]);
      LabelsStep(packet, offset + |first|, labels[1..]);
    }
  }

  lemma {:induction false} PrependSteps(packet: Octets, offset: nat, labels: seq<string>, form: Form)
    requires LabelsOk(labels) && StepsOver(packet, offset, labels)
    requires StepsAs(packet, offset + |LabelsWire(labels)|, form)
    ensures StepsAs(packet, offset, Prepend(labels, form))
    decreases |labels|
  {
    if |labels| > 0 {
      assert |LabelsWire(labels)| == 1 + |labels[0]| + |LabelsWire(labels[1..])|;
      PrependSteps(packet, offset + 1 + |labels[0]|, labels[1..], form);
    }
  }

  lemma {:induction false} PrependMeans(labels: seq<string>, form: Form, offset: nat)
    requires LabelsOk(labels)
    ensures Labels(Prepend(labels, form)) == OctetLabels(labels) + Labels(form)
    ensures Size(Prepend(labels, form)) == |LabelsWire(labels)| + Size(form)
    ensures EndOf(Prepend(labels, form), offset) == EndOf(form, offset + |LabelsWire(labels)|)
    decreases |labels|
  {
    if |labels| == 0 {
      assert OctetLabels(labels) + Labels(form) == Labels(form);
    } else {
      PrependMeans(labels[1..], form, offset + 1 + |labels[0]|);
      assert OctetLabels(labels) == [Ascii(labels[0])] + OctetLabels(labels[1..]);
      ConcatAssociates([Ascii(labels[0])], OctetLabels(labels[1..]), Labels(form));
    }
  }

  /** What the steps do behind labels, if they follow a form. */
  lemma {:induction false} RestSteps(packet: Octets, offset: nat, labels: seq<string>, form: Form)
    returns (rest: Form)
    requires LabelsOk(labels) && StepsOver(packet, offset, labels) && StepsAs(packet, offset, form)
    ensures StepsAs(packet, offset + |LabelsWire(labels)|, rest) && Size(rest) <= Size(form)
    decreases |labels|
  {
    if |labels| == 0 {
      rest := form;
    } else {
      assert |LabelsWire(labels)| == 1 + |labels[0]| + |LabelsWire(labels[1..])|;
      rest := RestSteps(packet, offset + 1 + |labels[0]|, labels[1..], form.rest);
    }
  }

  lemma {:induction false} SizeIsWireSize(form: Form)
    ensures Size(form) == WireSize(Labels(form))
    decreases form
  {
    match form
    case Root =>
    case Piece(octets, rest) =>
      SizeIsWireSize(rest);
      assert Labels(form)[1..] == Labels(rest);
    case Pointer(_, rest) => SizeIsWireSize(rest);
  }

  /**
   Compressed names: valid labels followed by a pointer back to a name decode to these labels in front of that name,
   exactly when that name decodes and the two together are not too long, and reading resumes after the pointer.
   */
  lemma {:induction false} CompressedRoundTrip(packet: Octets, offset: nat, labels: seq<string>, target: nat)
    requires LabelsOk(labels) && 12 <= target < 0x4000 && target < offset + |LabelsWire(labels)|
    requires OccursAt(packet, offset, LabelsWire(labels) + PointerWire(target))
    ensures Decode(packet, offset).Some? <==>
            && Expand(packet, target, 1).Some?
            && |LabelsWire(labels)| + WireSize(Expand(packet, target, 1).value.labels) <= 255
    ensures Decode(packet, offset).Some? ==>
              var all := OctetLabels(labels) + Expand(packet, target, 1).value.labels;
              Decode(packet, offset).value == Decoded(Lower(JoinOctets(all)) + [DOT], offset + |LabelsWire(labels)| + 2)
  {
    OccursParts(packet, offset, LabelsWire(labels), PointerWire(target));
    LabelsStep(packet, offset, labels);
    PointerSteps(packet, offset + |LabelsWire(labels)|, target);
    CompressedExpands(packet, offset, labels, target);
  }

  lemma {:induction false} CompressedExpands(packet: Octets, offset: nat, labels: seq<string>, target: nat)
    requires LabelsOk(labels) && StepsOver(packet, offset, labels)
    requires StepAt(packet, offset + |LabelsWire(labels)|) == Jump(target)
    ensures var e, there := Expand(packet, offset, 1), Expand(packet, target, 1);
            && (e.Some? <==> there.Some? && |LabelsWire(labels)| + WireSize(there.value.labels) <= 255)
            && (e.Some? ==> e.value.labels == OctetLabels(labels) + there.value.labels
                            && e.value.end == offset + |LabelsWire(labels)| + 2)
  {
    if Expand(packet, target, 1).Some? {
      var rest := ExpandedSteps(packet, target, 1);
      FormExpands(packet, target, rest, 1);
      SizeIsWireSize(rest);
      var form := Pointer(target, rest);
      PrependSteps(packet, offset, labels, form);
      PrependMeans(labels, form, offset);
      FormExpands(packet, offset, Prepend(labels, form), 1);
    } else if Expand(packet, offset, 1).Some? {
      var form := ExpandedSteps(packet, offset, 1);
      FormExpands(packet, offset, form, 1);
      var rest := RestSteps(packet, offset, labels, form);
      FormExpands(packet, target, rest.rest, 1);
    }
  }
}
