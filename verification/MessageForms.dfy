/**
 How records and messages lie in a packet, on the octets around their names, and what the response checker makes of
 them: which records it reads, which messages it accepts, and what it reports of them.
 */
module MessageForms {
  import opened DnsNames
  import opened NameForms
  import opened Numerals
  import opened Options
  import opened Reachability
  import opened Responses
  import opened Sequences
  import opened Wire

  /** A big-endian 16-bit word. */
  function Word(value: nat): Octets
    requires value < 0x1_0000
  {
    [value / 0x100, value % 0x100]
  }

  lemma WordReads(packet: Octets, offset: nat, value: nat)
    requires value < 0x1_0000 && offset + 2 <= |packet|
    ensures U16(packet, offset) == value <==> OccursAt(packet, offset, Word(value))
  {
    if OccursAt(packet, offset, Word(value)) {
      OctetOf(packet, offset, Word(value), 0);
      OctetOf(packet, offset, Word(value), 1);
    }
    if U16(packet, offset) == value {
      assert packet[offset..offset + 2] == [packet[offset], packet[offset + 1]];
    }
  }

  // ------------------------------------------------------------------ headers

  /** The twelve octets of a header: identifier, two octets of flags, and the four counts. */
  function HeaderWire(identifier: nat, flags: Octets, answers: nat, authorities: nat, additionals: nat): Octets
    requires identifier < 0x1_0000 && |flags| == 2
    requires answers < 0x1_0000 && authorities < 0x1_0000 && additionals < 0x1_0000
  {
    Word(identifier) + flags + [0, 1] + Word(answers) + Word(authorities) + Word(additionals)
  }

  /** A response with opcode 0 that is not truncated; the bits of AA and RD are free. */
  predicate ResponseFlags(flags: Octets) {
    |flags| == 2 && (flags[0] == 0x80 || flags[0] == 0x81 || flags[0] == 0x84 || flags[0] == 0x85)
  }

  /** The header of a response with this identifier and one question. */
  predicate HeaderLies(packet: Octets, identifier: nat) {
    && |packet| >= 12 && identifier < 0x1_0000
    && packet[..2] == Word(identifier) && ResponseFlags(packet[2..4]) && packet[4..6] == [0, 1]
  }

  /** The header check on octets. */
  lemma HeaderExactly(packet: Octets, identifier: nat)
    ensures HeaderOk(packet, identifier) <==> HeaderLies(packet, identifier)
  {
    if |packet| >= 12 {
      HeaderBits(packet, identifier);
    }
  }

  lemma HeaderBits(packet: Octets, identifier: nat)
    requires |packet| >= 12
    ensures HeaderOk(packet, identifier) <==> HeaderLies(packet, identifier)
  {
    if identifier < 0x1_0000 {
      WordReads(packet, 0, identifier);
    }
    WordReads(packet, 4, 1);
    assert packet[0..2] == packet[..2];
    assert packet[2..4] == [packet[2], packet[3]];
    FlagBits(packet[2], packet[3]);
  }

  lemma FlagBits(high: octet, low: octet)
    ensures var flags := high * 0x100 + low;
            && ((flags / 0x8000) % 2 == 1 && (flags / 0x800) % 16 == 0 && (flags / 0x200) % 2 == 0 <==>
                high == 0x80 || high == 0x81 || high == 0x84 || high == 0x85)
            && ((flags / 0x400) % 2 == 1 <==> (high / 4) % 2 == 1)
            && flags % 16 == low % 16
  {
    var flags := high * 0x100 + low;
    assert flags / 0x8000 == high / 0x80;
    assert flags / 0x800 == high / 8;
    assert flags / 0x400 == high / 4;
    assert flags / 0x200 == high / 2;
  }

  // ------------------------------------------------------------------ records

  /** A record as it lies in a packet: its owner with the offset behind it, and what follows. */
  datatype RecordForm = RecordForm(owner: Decoded, kind: nat, cls: nat, ttl: Octets, data: Octets)

  /** What follows the owner: type, class, four octets of time to live, the length of the data, the data. */
  function TailWire(kind: nat, cls: nat, ttl: Octets, data: Octets): Octets
    requires kind < 0x1_0000 && cls < 0x1_0000 && |data| < 0x1_0000
  {
    Word(kind) + Word(cls) + ttl + Word(|data|) + data
  }

  predicate RecordLies(packet: Octets, offset: nat, form: RecordForm) {
    && Decode(packet, offset) == Some(form.owner)
    && form.kind < 0x1_0000 && form.cls < 0x1_0000 && |form.ttl| == 4 && |form.data| < 0x1_0000
    && OccursAt(packet, form.owner.end, TailWire(form.kind, form.cls, form.ttl, form.data))
  }

  function DataOf(form: RecordForm): nat {
    form.owner.end + 10
  }

  function FormEnd(form: RecordForm): nat {
    form.owner.end + 10 + |form.data|
  }

  /** What the types demand of their data: an address its length, an alias and its like one whole name. */
  predicate DataFits(packet: Octets, from: nat, end: nat, kind: nat) {
    && (kind == 1 ==> end == from + 4)
    && (kind == 28 ==> end == from + 16)
    && (kind in {2, 5, 12, 39} ==> Decode(packet, from).Some? && Decode(packet, from).value.end == end)
  }

  lemma TailParts(packet: Octets, at: nat, kind: nat, cls: nat, ttl: Octets, data: Octets)
    requires kind < 0x1_0000 && cls < 0x1_0000 && |ttl| == 4 && |data| < 0x1_0000
    requires OccursAt(packet, at, TailWire(kind, cls, ttl, data))
    ensures at + 10 + |data| <= |packet|
    ensures U16(packet, at) == kind && U16(packet, at + 2) == cls && U16(packet, at + 8) == |data|
    ensures packet[at + 4] == ttl[0] && OccursAt(packet, at + 10, data)
  {
    var a, b, c, d := Word(kind), Word(cls), ttl, Word(|data|);
    OccursParts(packet, at, a + b + c + d, data);
    OccursParts(packet, at, a + b + c, d);
    OccursParts(packet, at, a + b, c);
    OccursParts(packet, at, a, b);
    WordReads(packet, at, kind);
    WordReads(packet, at + 2, cls);
    WordReads(packet, at + 8, |data|);
    OctetOf(packet, at + 4, ttl, 0);
  }

  lemma TailLies(packet: Octets, at: nat)
    requires at + 10 <= |packet| && at + 10 + U16(packet, at + 8) <= |packet|
    ensures var size := U16(packet, at + 8);
            OccursAt(packet, at, TailWire(U16(packet, at), U16(packet, at + 2), packet[at + 4..at + 8],
                                          packet[at + 10..at + 10 + size]))
  {
    var size := U16(packet, at + 8);
    WordReads(packet, at, U16(packet, at));
    WordReads(packet, at + 2, U16(packet, at + 2));
    WordReads(packet, at + 8, size);
    var a, b, c, d, e := packet[at..at + 2], packet[at + 2..at + 4], packet[at + 4..at + 8], packet[at + 8..at + 10],
        packet[at + 10..at + 10 + size];
    assert packet[at..at + 10 + size] == a + b + c + d + e;
  }

  /** The record that lies at `offset`, as the checker keeps it. */
  predicate IsRecordOf(packet: Octets, offset: nat, form: RecordForm, record: Record) {
    && record.start == offset && record.owner == form.owner.name && record.kind == form.kind && record.cls == form.cls
    && (|form.ttl| == 4 ==> record.ttlTop == form.ttl[0])
    && record.data == DataOf(form) && record.end == FormEnd(form)
    && (form.kind in {2, 5, 12, 39} ==>
          Decode(packet, DataOf(form)) == Some(Decoded(record.target, FormEnd(form))))
  }

  /** A record that lies in the packet is read exactly when its data fits its type, and read as what it is. */
  lemma RecordReads(packet: Octets, offset: nat, form: RecordForm)
    requires RecordLies(packet, offset, form)
    ensures Reader(packet)(offset).Some? <==> DataFits(packet, DataOf(form), FormEnd(form), form.kind)
    ensures Reader(packet)(offset).Some? ==> IsRecordOf(packet, offset, form, Reader(packet)(offset).value)
  {
    TailParts(packet, form.owner.end, form.kind, form.cls, form.ttl, form.data);
    RecordFromParts(packet, offset, form.owner, form.kind, form.cls, form.ttl[0], FormEnd(form));
  }

  /** What is read of an owner and what follows it, up to the name in the data. */
  lemma RecordFromParts(packet: Octets, offset: nat, owner: Decoded, kind: nat, cls: nat, top: octet, end: nat)
    requires Decode(packet, offset) == Some(owner) && owner.end + 10 <= end <= |packet|
    requires U16(packet, owner.end) == kind && U16(packet, owner.end + 2) == cls && packet[owner.end + 4] == top
    requires owner.end + 10 + U16(packet, owner.end + 8) == end
    ensures var data := owner.end + 10;
            var plain := Record(offset, owner.name, kind, cls, top, data, end, []);
            var name := Decode(packet, data);
            Reader(packet)(offset) ==
            if (kind == 1 && end != data + 4) || (kind == 28 && end != data + 16) then None
            else if kind !in {2, 5, 12, 39} then Some(plain)
            else if name.Some? && name.value.end == end then Some(plain.(target := name.value.name))
            else None
  {
  }

  /** And a record is read only where one lies. */
  lemma ReadRecordLies(packet: Octets, offset: nat) returns (form: RecordForm)
    requires Reader(packet)(offset).Some?
    ensures RecordLies(packet, offset, form)
  {
    var owner := Decode(packet, offset).value;
    var at := owner.end;
    var size := U16(packet, at + 8);
    form := RecordForm(owner, U16(packet, at), U16(packet, at + 2), packet[at + 4..at + 8],
                       packet[at + 10..at + 10 + size]);
    TailLies(packet, at);
  }

  // ------------------------------------------------------------------ EDNS options

  datatype EdnsOption = EdnsOption(code: nat, data: Octets)

  predicate OptionsOk(options: seq<EdnsOption>) {
    forall i :: 0 <= i < |options| ==> options[i].code < 0x1_0000 && |options[i].data| < 0x1_0000
  }

  function OptionWire(option: EdnsOption): Octets
    requires option.code < 0x1_0000 && |option.data| < 0x1_0000
  {
    Word(option.code) + Word(|option.data|) + option.data
  }

  function OptionsWire(options: seq<EdnsOption>): Octets
    requires OptionsOk(options)
  {
    if |options| == 0 then [] else OptionWire(options[0]) + OptionsWire(options[1..])
  }

  lemma {:induction false} OptionsLieTile(packet: Octets, from: nat, options: seq<EdnsOption>)
    requires OptionsOk(options) && OccursAt(packet, from, OptionsWire(options))
    ensures OptionsTile(packet, from, from + |OptionsWire(options)|)
    decreases |options|
  {
    if |options| == 0 {
      assert CutsInto(packet, from, from, [from]);
    } else {
      var first, rest := options[0], OptionsWire(options[1..]);
      var next, to := from + 4 + |first.data|, from + |OptionsWire(options)|;
      OccursParts(packet, from, OptionWire(first), rest);
      OptionsLieTile(packet, next, options[1..]);
      OccursParts(packet, from, Word(first.code) + Word(|first.data|), first.data);
      OccursParts(packet, from, Word(first.code), Word(|first.data|));
      WordReads(packet, from + 2, |first.data|);
      OptionsTileStep(packet, from, to);
    }
  }

  lemma {:induction false} TiledOptionsLie(packet: Octets, from: nat, to: nat) returns (options: seq<EdnsOption>)
    requires from <= to <= |packet| && OptionsTile(packet, from, to)
    ensures OptionsOk(options) && packet[from..to] == OptionsWire(options)
    decreases |packet| - from
  {
    if from == to {
      options := [];
    } else {
      OptionsTileStep(packet, from, to);
      var size := U16(packet, from + 2);
      var next := from + 4 + size;
      var rest := TiledOptionsLie(packet, next, to);
      var first := EdnsOption(U16(packet, from), packet[from + 4..next]);
      options := [first] + rest;
      assert options[1..] == rest;
      WordReads(packet, from, first.code);
      WordReads(packet, from + 2, size);
      var a, b, c, d := packet[from..from + 2], packet[from + 2..from + 4], packet[from + 4..next], packet[next..to];
      assert packet[from..to] == a + b + c + d;
    }
  }

  /** Data is whole options exactly when it is written as some. */
  lemma OptionsExactly(packet: Octets, from: nat, to: nat)
    requires from <= to <= |packet|
    ensures OptionsTile(packet, from, to) <==> HoldsOptions(packet[from..to])
  {
    if OptionsTile(packet, from, to) {
      var options := TiledOptionsLie(packet, from, to);
    }
    if HoldsOptions(packet[from..to]) {
      var options :| OptionsOk(options) && packet[from..to] == OptionsWire(options);
      OptionsLieTile(packet, from, options);
    }
  }

  ghost predicate HoldsOptions(data: Octets) {
    exists options :: OptionsOk(options) && data == OptionsWire(options)
  }

  // ------------------------------------------------------------------ messages

  /** A record lies here whole, with data that fits its type. */
  predicate RecordFits(packet: Octets, offset: nat, form: RecordForm) {
    RecordLies(packet, offset, form) && DataFits(packet, DataOf(form), FormEnd(form), form.kind)
  }

  /** The records lie one behind the other from `from` to `end`. */
  ghost predicate FormsLie(packet: Octets, from: nat, forms: seq<RecordForm>, end: nat)
    decreases |forms|
  {
    if |forms| == 0 then from == end
    else RecordFits(packet, from, forms[0]) && FormsLie(packet, FormEnd(forms[0]), forms[1..], end)
  }

  /** An OPT record stands behind `before` records, is owned by the root, holds whole options, and is the first. */
  ghost predicate OptFits(forms: seq<RecordForm>, i: nat, before: nat)
    requires i < |forms|
  {
    forms[i].kind == 41 ==>
      && i >= before && forms[i].owner.name == [DOT] && HoldsOptions(forms[i].data)
      && forall j :: 0 <= j < i ==> forms[j].kind != 41
  }

  /** Each record is the one of its form. */
  ghost predicate RecordsMatch(packet: Octets, forms: seq<RecordForm>, records: seq<Record>) {
    |records| == |forms| && forall i :: 0 <= i < |forms| ==> IsRecordOf(packet, records[i].start, forms[i], records[i])
  }

  lemma {:induction false} FormsChain(packet: Octets, from: nat, forms: seq<RecordForm>, end: nat)
    returns (records: seq<Record>)
    requires FormsLie(packet, from, forms, end)
    ensures Chain(Reader(packet), from, records) && RecordsMatch(packet, forms, records)
    ensures StartOf(from, records, |records|) == end
    decreases |forms|
  {
    if |forms| == 0 {
      records := [];
    } else {
      RecordReads(packet, from, forms[0]);
      var first := Reader(packet)(from).value;
      var rest := FormsChain(packet, first.end, forms[1..], end);
      records := [first] + rest;
      ChainCons(Reader(packet), from, first, rest);
    }
  }

  lemma ChainCons(read: nat -> Option<Record>, from: nat, first: Record, rest: seq<Record>)
    requires read(from) == Some(first) && Chain(read, first.end, rest)
    ensures Chain(read, from, [first] + rest)
    ensures StartOf(from, [first] + rest, |rest| + 1) == StartOf(first.end, rest, |rest|)
  {
    var all := [first] + rest;
    forall i | 0 <= i < |all|
      ensures read(StartOf(from, all, i)) == Some(all[i])
    {
      if i > 0 {
        assert StartOf(from, all, i) == StartOf(first.end, rest, i - 1);
      }
    }
  }

  lemma ChainTail(read: nat -> Option<Record>, from: nat, records: seq<Record>)
    requires |records| > 0 && Chain(read, from, records)
    ensures read(from) == Some(records[0]) && Chain(read, records[0].end, records[1..])
    ensures StartOf(from, records, |records|) == StartOf(records[0].end, records[1..], |records| - 1)
  {
    assert StartOf(from, records, 0) == from;
    var rest := records[1..];
    forall i | 0 <= i < |rest|
      ensures read(StartOf(records[0].end, rest, i)) == Some(rest[i])
    {
      assert StartOf(from, records, i + 1) == StartOf(records[0].end, rest, i);
    }
  }

  lemma ReadRecordFits(packet: Octets, offset: nat) returns (form: RecordForm)
    requires Reader(packet)(offset).Some?
    ensures RecordFits(packet, offset, form) && IsRecordOf(packet, offset, form, Reader(packet)(offset).value)
  {
    form := ReadRecordLies(packet, offset);
    RecordReads(packet, offset, form);
  }

  lemma {:induction false} FormsCons(packet: Octets, from: nat, first: RecordForm, rest: seq<RecordForm>, end: nat)
    requires RecordFits(packet, from, first) && FormsLie(packet, FormEnd(first), rest, end)
    ensures FormsLie(packet, from, [first] + rest, end)
  {
    assert ([first] + rest)[1..] == rest;
  }

  lemma MatchCons(packet: Octets, form: RecordForm, record: Record, forms: seq<RecordForm>, records: seq<Record>)
    requires IsRecordOf(packet, record.start, form, record) && RecordsMatch(packet, forms, records)
    ensures RecordsMatch(packet, [form] + forms, [record] + records)
  {
  }

  lemma {:induction false} ChainLies(packet: Octets, from: nat, records: seq<Record>) returns (forms: seq<RecordForm>)
    requires Chain(Reader(packet), from, records)
    ensures FormsLie(packet, from, forms, StartOf(from, records, |records|)) && RecordsMatch(packet, forms, records)
    decreases |records|
  {
    if |records| == 0 {
      forms := [];
    } else {
      ChainTail(Reader(packet), from, records);
      var first := ReadRecordFits(packet, from);
      var rest := ChainLies(packet, records[0].end, records[1..]);
      forms := [first] + rest;
      FormsCons(packet, from, first, rest, StartOf(from, records, |records|));
      MatchCons(packet, first, records[0], rest, records[1..]);
      assert records == [records[0]] + records[1..];
    }
  }

  // ------------------------------------------------------------------ what is accepted

  /** A question lies behind the header and ends at `end`: the queried name, type and class IN. */
  predicate QuestionLies(packet: Octets, query: Query, end: nat) {
    && end >= 4 && query.kind < 0x1_0000
    && Decode(packet, 12) == Some(Decoded(query.name, end - 4))
    && OccursAt(packet, end - 4, Word(query.kind) + [0, 1])
  }

  /** The whole packet is a message: header, question, and as many records as the header counts, each in its place. */
  ghost predicate MessageLies(packet: Octets, identifier: nat, query: Query, from: nat, forms: seq<RecordForm>) {
    && HeaderLies(packet, identifier) && QuestionLies(packet, query, from)
    && FormsLie(packet, from, forms, |packet|)
    && CountsAre(packet, forms)
  }

  /** The header counts the records, and an OPT record is an additional one. */
  ghost predicate CountsAre(packet: Octets, forms: seq<RecordForm>)
    requires |packet| >= 12
  {
    exists answers: nat, authorities: nat, additionals: nat ::
      CountedAs(packet, forms, answers, authorities, additionals)
  }

  ghost predicate CountedAs(packet: Octets, forms: seq<RecordForm>, answers: nat, authorities: nat, additionals: nat)
    requires |packet| >= 12
  {
    && answers < 0x1_0000 && authorities < 0x1_0000 && additionals < 0x1_0000
    && packet[6..12] == Word(answers) + Word(authorities) + Word(additionals)
    && |forms| == answers + authorities + additionals
    && OptsFit(forms, answers + authorities)
  }

  ghost predicate OptsFit(forms: seq<RecordForm>, before: nat) {
    forall i :: 0 <= i < |forms| ==> OptFits(forms, i, before)
  }

  lemma QuestionExactly(packet: Octets, query: Query)
    ensures QuestionOk(packet, query) <==> exists end: nat :: QuestionLies(packet, query, end)
    ensures forall end: nat :: QuestionLies(packet, query, end) ==>
              Decode(packet, 12).Some? && QuestionEnd(packet) == end
  {
    if QuestionOk(packet, query) {
      var at := Decode(packet, 12).value.end;
      WordReads(packet, at, query.kind);
      WordReads(packet, at + 2, 1);
      assert packet[at..at + 4] == packet[at..at + 2] + packet[at + 2..at + 4];
      assert QuestionLies(packet, query, at + 4);
    }
    forall end: nat | QuestionLies(packet, query, end)
      ensures QuestionOk(packet, query) && QuestionEnd(packet) == end
    {
      OccursParts(packet, end - 4, Word(query.kind), Word(1));
      WordReads(packet, end - 4, query.kind);
      WordReads(packet, end - 2, 1);
    }
  }

  lemma CountsRead(packet: Octets, answers: nat, authorities: nat, additionals: nat)
    requires |packet| >= 12 && answers < 0x1_0000 && authorities < 0x1_0000 && additionals < 0x1_0000
    ensures packet[6..12] == Word(answers) + Word(authorities) + Word(additionals) <==>
            U16(packet, 6) == answers && U16(packet, 8) == authorities && U16(packet, 10) == additionals
  {
    WordReads(packet, 6, answers);
    WordReads(packet, 8, authorities);
    WordReads(packet, 10, additionals);
    assert packet[6..12] == packet[6..8] + packet[8..10] + packet[10..12];
    if packet[6..12] == Word(answers) + Word(authorities) + Word(additionals) {
      OccursParts(packet, 6, Word(answers) + Word(authorities), Word(additionals));
      OccursParts(packet, 6, Word(answers), Word(authorities));
    }
  }

  /** The rules for an OPT record are the same for forms and records. */
  lemma {:induction false} OptSame(packet: Octets, from: nat, forms: seq<RecordForm>, records: seq<Record>, i: nat,
                                   before: nat)
    requires FormsLie(packet, from, forms, |packet|) && RecordsMatch(packet, forms, records) && i < |forms|
    requires Chain(Reader(packet), from, records) && records[i].end <= |packet|
    ensures OptFits(forms, i, before) <==> OptAllowed(packet, records, i, before)
  {
    assert IsRecordOf(packet, records[i].start, forms[i], records[i]);
    assert forall j :: 0 <= j < i ==> IsRecordOf(packet, records[j].start, forms[j], records[j]);
    if forms[i].kind == 41 {
      FormAt(packet, from, forms, records, i);
      OptionsExactly(packet, records[i].data, records[i].end);
    }
  }

  /** The data of each form lies where its record says. */
  lemma {:induction false} FormAt(packet: Octets, from: nat, forms: seq<RecordForm>, records: seq<Record>, i: nat)
    requires FormsLie(packet, from, forms, |packet|) && RecordsMatch(packet, forms, records) && i < |forms|
    requires Chain(Reader(packet), from, records)
    ensures DataAt(packet, forms[i], records[i])
    decreases i
  {
    ChainTail(Reader(packet), from, records);
    FirstFormAt(packet, from, forms[0], records[0]);
    if i > 0 {
      MatchTail(packet, forms, records);
      FormAt(packet, records[0].end, forms[1..], records[1..], i - 1);
    }
  }

  predicate DataAt(packet: Octets, form: RecordForm, record: Record) {
    record.data <= record.end <= |packet| && packet[record.data..record.end] == form.data
  }

  lemma FirstFormAt(packet: Octets, from: nat, form: RecordForm, record: Record)
    requires RecordLies(packet, from, form) && IsRecordOf(packet, record.start, form, record)
    ensures DataAt(packet, form, record) && record.end == FormEnd(form)
  {
    TailParts(packet, form.owner.end, form.kind, form.cls, form.ttl, form.data);
  }

  lemma MatchTail(packet: Octets, forms: seq<RecordForm>, records: seq<Record>)
    requires RecordsMatch(packet, forms, records) && |forms| > 0
    ensures RecordsMatch(packet, forms[1..], records[1..])
  {
  }

  /** Where each record of the packet ends. */
  lemma {:induction false} EndsInside(packet: Octets, from: nat, records: seq<Record>, i: nat)
    requires Chain(Reader(packet), from, records) && i < |records|
    ensures records[i].end <= |packet|
  {
    assert Reader(packet)(StartOf(from, records, i)) == Some(records[i]);
  }

  lemma {:induction false} OptsSame(packet: Octets, from: nat, forms: seq<RecordForm>, records: seq<Record>)
    requires |packet| >= 12 && FormsLie(packet, from, forms, |packet|) && RecordsMatch(packet, forms, records)
    requires Chain(Reader(packet), from, records)
    ensures OptsFit(forms, BeforeAdditional(packet)) <==> Opens(packet, from, records)
  {
    var before := BeforeAdditional(packet);
    forall i | 0 <= i < |records|
      ensures records[i].end <= |packet| && (OptFits(forms, i, before) <==> OptAllowed(packet, records, i, before))
    {
      EndsInside(packet, from, records, i);
      OptSame(packet, from, forms, records, i, before);
    }
  }

  lemma CountsExactly(packet: Octets, forms: seq<RecordForm>)
    requires |packet| >= 12
    ensures CountsAre(packet, forms) <==>
            |forms| == RecordCount(packet) && OptsFit(forms, BeforeAdditional(packet))
  {
    if CountsAre(packet, forms) {
      var a: nat, b: nat, c: nat :| CountedAs(packet, forms, a, b, c);
      CountsRead(packet, a, b, c);
    }
    if |forms| == RecordCount(packet) && OptsFit(forms, BeforeAdditional(packet)) {
      CountsRead(packet, U16(packet, 6), U16(packet, 8), U16(packet, 10));
      assert CountedAs(packet, forms, U16(packet, 6), U16(packet, 8), U16(packet, 10));
    }
  }

  /** Records that lie to the end of the packet as counted are the ones the checker cuts it into. */
  lemma FormsFill(packet: Octets, from: nat, forms: seq<RecordForm>) returns (records: seq<Record>)
    requires |packet| >= 12 && FormsLie(packet, from, forms, |packet|) && CountsAre(packet, forms)
    ensures Fills(packet, from, records) && RecordsMatch(packet, forms, records)
  {
    records := FormsChain(packet, from, forms, |packet|);
    OptsSame(packet, from, forms, records);
    CountsExactly(packet, forms);
  }

  lemma FilledLies(packet: Octets, from: nat, records: seq<Record>) returns (forms: seq<RecordForm>)
    requires |packet| >= 12 && Fills(packet, from, records)
    ensures FormsLie(packet, from, forms, |packet|) && CountsAre(packet, forms)
  {
    forms := ChainLies(packet, from, records);
    OptsSame(packet, from, forms, records);
    CountsExactly(packet, forms);
  }

  lemma MessageFills(packet: Octets, identifier: nat, query: Query, from: nat, forms: seq<RecordForm>)
    returns (records: seq<Record>)
    requires MessageLies(packet, identifier, query, from, forms)
    ensures Accepted(packet, identifier, query) && RecordsMatch(packet, forms, records)
    ensures Fills(packet, QuestionEnd(packet), records)
  {
    HeaderExactly(packet, identifier);
    QuestionExactly(packet, query);
    records := FormsFill(packet, from, forms);
  }

  lemma AcceptedLies(packet: Octets, identifier: nat, query: Query) returns (from: nat, forms: seq<RecordForm>)
    requires Accepted(packet, identifier, query)
    ensures MessageLies(packet, identifier, query, from, forms)
  {
    HeaderExactly(packet, identifier);
    QuestionExactly(packet, query);
    from := QuestionEnd(packet);
    var records :| Fills(packet, from, records);
    forms := FilledLies(packet, from, records);
  }

  /** The checker accepts exactly the packets that are messages. */
  lemma AcceptedExactly(packet: Octets, identifier: nat, query: Query)
    ensures Accepted(packet, identifier, query) <==>
            exists from, forms :: MessageLies(packet, identifier, query, from, forms)
  {
    if Accepted(packet, identifier, query) {
      var from, forms := AcceptedLies(packet, identifier, query);
    }
    if from, forms :| MessageLies(packet, identifier, query, from, forms) {
      var records := MessageFills(packet, identifier, query, from, forms);
    }
  }

  // ------------------------------------------------------------------ what is reported

  /** The `i`-th record is an alias of class IN from one name to another. */
  predicate IsLink(packet: Octets, forms: seq<RecordForm>, i: nat, owner: Octets, target: Octets)
    requires i < |forms|
  {
    && forms[i].kind == 5 && forms[i].cls == 1 && forms[i].owner.name == owner
    && Decode(packet, DataOf(forms[i])) == Some(Decoded(target, FormEnd(forms[i])))
  }

  ghost predicate FormLink(packet: Octets, forms: seq<RecordForm>, owner: Octets, target: Octets) {
    exists i :: 0 <= i < |forms| && IsLink(packet, forms, i, owner, target)
  }

  ghost predicate FormChain(packet: Octets, forms: seq<RecordForm>, names: seq<Octets>) {
    |names| > 0 && forall k :: 0 < k < |names| ==> FormLink(packet, forms, names[k - 1], names[k])
  }

  /** Some record of class IN and of the queried type, or of any for type 255, is reached from the queried name. */
  ghost predicate FormsAnswer(packet: Octets, forms: seq<RecordForm>, query: Query) {
    exists i, names ::
      && 0 <= i < |forms| && forms[i].cls == 1 && (forms[i].kind == query.kind || query.kind == 255)
      && FormChain(packet, forms, names) && names[0] == query.name && names[|names| - 1] == forms[i].owner.name
  }

  lemma LinksSame(packet: Octets, forms: seq<RecordForm>, records: seq<Record>, owner: Octets, target: Octets)
    requires RecordsMatch(packet, forms, records)
    ensures AliasLink(records, owner, target) <==> FormLink(packet, forms, owner, target)
  {
    forall i | 0 <= i < |forms|
      ensures IsLink(packet, forms, i, owner, target) <==>
              IsAlias(records[i]) && records[i].owner == owner && records[i].target == target
    {
      assert IsRecordOf(packet, records[i].start, forms[i], records[i]);
    }
  }

  lemma ChainsSame(packet: Octets, forms: seq<RecordForm>, records: seq<Record>, names: seq<Octets>)
    requires RecordsMatch(packet, forms, records)
    ensures AliasChain(records, names) <==> FormChain(packet, forms, names)
  {
    forall k | 0 < k < |names|
      ensures AliasLink(records, names[k - 1], names[k]) <==> FormLink(packet, forms, names[k - 1], names[k])
    {
      LinksSame(packet, forms, records, names[k - 1], names[k]);
    }
  }

  lemma AnsweredSame(packet: Octets, forms: seq<RecordForm>, records: seq<Record>, query: Query)
    requires RecordsMatch(packet, forms, records)
    ensures Answered(records, query) <==> FormsAnswer(packet, forms, query)
  {
    forall names: seq<Octets>
      ensures AliasChain(records, names) <==> FormChain(packet, forms, names)
    {
      ChainsSame(packet, forms, records, names);
    }
    forall i | 0 <= i < |forms|
      ensures records[i].cls == forms[i].cls && records[i].kind == forms[i].kind
      ensures records[i].owner == forms[i].owner.name
    {
      assert IsRecordOf(packet, records[i].start, forms[i], records[i]);
    }
  }

  /** The upper part of the response code: that of the OPT record, if there is one. */
  ghost predicate UpperCode(forms: seq<RecordForm>, code: nat) {
    && (forall i :: 0 <= i < |forms| && forms[i].kind == 41 && |forms[i].ttl| == 4 ==>
          var top: int := forms[i].ttl[0]; code == top * 16)
    && ((forall i :: 0 <= i < |forms| ==> forms[i].kind != 41) ==> code == 0)
  }

  lemma {:induction false} NoOptNoCode(records: seq<Record>)
    requires forall i :: 0 <= i < |records| ==> records[i].kind != RR_OPT
    ensures ExtendedRcode(records) == 0
  {
    if |records| > 0 {
      NoOptNoCode(records[..|records| - 1]);
    }
  }

  lemma {:induction false} UpperCodeRead(packet: Octets, from: nat, forms: seq<RecordForm>, records: seq<Record>)
    requires |packet| >= 12 && Fills(packet, from, records) && RecordsMatch(packet, forms, records)
    ensures UpperCode(forms, ExtendedRcode(records))
  {
    forall i | 0 <= i < |forms|
      ensures records[i].kind == forms[i].kind && (|forms[i].ttl| == 4 ==> records[i].ttlTop == forms[i].ttl[0])
      ensures forms[i].kind == 41 ==> ExtendedRcode(records) == records[i].ttlTop * 16
    {
      assert IsRecordOf(packet, records[i].start, forms[i], records[i]);
      if forms[i].kind == 41 {
        OptAtMostOnce(packet, from, records, i, i);
      }
    }
    if forall i :: 0 <= i < |forms| ==> forms[i].kind != 41 {
      NoOptNoCode(records);
    }
  }

  /** What is reported of a message, on its octets. */
  ghost predicate ReportSays(packet: Octets, query: Query, forms: seq<RecordForm>, report: Report)
    requires |packet| >= 12
  {
    && (report.aa <==> packet[2] == 0x84 || packet[2] == 0x85)
    && (exists upper: nat :: UpperCode(forms, upper) && report.rcode == RcodeName(packet[3] % 16 + upper))
    && report.answerCount < 0x1_0000 && packet[6..8] == Word(report.answerCount) && report.answerCount <= |forms|
    && (report.hasRequestedAnswer <==> FormsAnswer(packet, forms[..report.answerCount], query))
    && report.responseBytes == |packet|
  }

  /** The checker's report of an accepted packet says this of the message that it is. */
  lemma ReportMeans(packet: Octets, identifier: nat, query: Query, from: nat, forms: seq<RecordForm>, report: Report)
    requires MessageLies(packet, identifier, query, from, forms) && Decode(packet, 12).Some?
    requires forall records :: Fills(packet, QuestionEnd(packet), records) && Answers(packet) <= |records| ==>
               Reports(packet, query, records, report)
    ensures ReportSays(packet, query, forms, report)
  {
    var records := MessageFills(packet, identifier, query, from, forms);
    ReportOfRecords(packet, QuestionEnd(packet), query, forms, records, report);
  }

  lemma ReportOfRecords(packet: Octets, from: nat, query: Query, forms: seq<RecordForm>, records: seq<Record>,
                        report: Report)
    requires |packet| >= 12 && ResponseFlags(packet[2..4])
    requires Fills(packet, from, records) && RecordsMatch(packet, forms, records)
    requires Reports(packet, query, records, report)
    ensures ReportSays(packet, query, forms, report)
  {
    var n := Answers(packet);
    FlagsRead(packet);
    UpperCodeRead(packet, from, forms, records);
    MatchPrefix(packet, forms, records, n);
    AnsweredSame(packet, forms[..n], records[..n], query);
    WordReads(packet, 6, n);
  }

  lemma MatchPrefix(packet: Octets, forms: seq<RecordForm>, records: seq<Record>, n: nat)
    requires RecordsMatch(packet, forms, records) && n <= |forms|
    ensures RecordsMatch(packet, forms[..n], records[..n])
  {
  }

  lemma FlagsRead(packet: Octets)
    requires |packet| >= 12 && ResponseFlags(packet[2..4])
    ensures (U16(packet, 2) / 0x400) % 2 == 1 <==> packet[2] == 0x84 || packet[2] == 0x85
    ensures U16(packet, 2) % 16 == packet[3] % 16
  {
    FlagBits(packet[2], packet[3]);
  }

  /** The names of the codes that servers use. */
  lemma OrdinaryCodes(code: nat)
    ensures RcodeName(code) == "NOERROR" <==> code == 0
    ensures RcodeName(code) == "SERVFAIL" <==> code == 2
    ensures RcodeName(code) == "NXDOMAIN" <==> code == 3
    ensures RcodeName(code) == "REFUSED" <==> code == 5
    ensures RcodeName(code) == "RCODE16" <==> code == 16
  {
    assert Decimal(16) == Decimal(1) + ['6'];
    assert RcodeName(16) == "RCODE" + Decimal(16) == "RCODE16";
    RcodeDetermines(code, 0);
    RcodeDetermines(code, 2);
    RcodeDetermines(code, 3);
    RcodeDetermines(code, 5);
    RcodeDetermines(code, 16);
  }

  lemma RcodeDetermines(m: nat, n: nat)
    ensures RcodeName(m) == RcodeName(n) <==> m == n
  {
    if RcodeName(m) == RcodeName(n) {
      RcodeNamesDiffer(m, n);
    }
  }

  // ------------------------------------------------------------------ ordinary responses

  /** A response to the query that counts these records, up to the first of them at `from`. */
  predicate Begins(packet: Octets, identifier: nat, query: Query, from: nat, answers: nat, additionals: nat) {
    && answers < 0x1_0000 && additionals < 0x1_0000
    && HeaderLies(packet, identifier) && packet[6..12] == Word(answers) + Word(0) + Word(additionals)
    && QuestionLies(packet, query, from)
  }

  /** The probe's own question behind a header is one. */
  lemma {:induction false} EchoBegins(packet: Octets, identifier: nat, name: string, kind: nat, answers: nat,
                                      additionals: nat)
    requires identifier < 0x1_0000 && kind < 0x1_0000 && Encodable(name) && LabelsOk(WireLabels(name))
    requires answers < 0x1_0000 && additionals < 0x1_0000 && |packet| >= 12 && ResponseFlags(packet[2..4])
    requires packet[..12] == HeaderWire(identifier, packet[2..4], answers, 0, additionals)
    requires OccursAt(packet, 12, LabelsWire(WireLabels(name)) + [0] + (Word(kind) + [0, 1]))
    ensures var from := 16 + |LabelsWire(WireLabels(name)) + [0]|;
            Begins(packet, identifier, Query(Lower(Ascii(StripDots(name))) + [DOT], kind), from, answers, additionals)
  {
    var header := packet[..12];
    assert packet[..2] == header[..2] && packet[4..6] == header[4..6] && packet[6..12] == header[6..];
    OccursParts(packet, 12, LabelsWire(WireLabels(name)) + [0], Word(kind) + [0, 1]);
    EncodedDecodes(packet, 12, name);
  }

  /** Its records, one behind the other to the end, make it a message. */
  lemma {:induction false} BeginsMessage(packet: Octets, identifier: nat, query: Query, from: nat, answers: nat,
                                         additionals: nat, forms: seq<RecordForm>)
    requires Begins(packet, identifier, query, from, answers, additionals)
    requires FormsLie(packet, from, forms, |packet|) && |forms| == answers + additionals && OptsFit(forms, answers)
    ensures MessageLies(packet, identifier, query, from, forms) && Answers(packet) == answers
  {
    CountsRead(packet, answers, 0, additionals);
    assert CountedAs(packet, forms, answers, 0, additionals);
  }

  /** A record of class IN whose owner is a pointer back to a name, and whose data fits its type. */
  lemma PointedRecordFits(packet: Octets, offset: nat, target: nat, kind: nat, ttl: Octets, data: Octets, name: Octets)
    requires kind < 0x1_0000 && |ttl| == 4 && |data| < 0x1_0000 && 12 <= target < offset && target < 0x4000
    requires OccursAt(packet, offset, PointerWire(target) + TailWire(kind, 1, ttl, data))
    requires Decode(packet, target).Some? && Decode(packet, target).value.name == name
    requires DataFits(packet, offset + 12, offset + 12 + |data|, kind)
    ensures RecordFits(packet, offset, RecordForm(Decoded(name, offset + 2), kind, 1, ttl, data))
  {
    OccursParts(packet, offset, PointerWire(target), TailWire(kind, 1, ttl, data));
    PointerMeansTarget(packet, offset, target);
  }

  /** Data of an address has its length, and any other type here holds no name. */
  predicate PlainData(kind: nat, data: Octets) {
    && kind !in {2, 5, 12, 39, 41} && (kind == 1 ==> |data| == 4) && (kind == 28 ==> |data| == 16)
    && |data| < 0x1_0000
  }

  lemma {:induction false} OneLies(packet: Octets, from: nat, form: RecordForm)
    requires RecordFits(packet, from, form)
    ensures FormsLie(packet, from, [form], FormEnd(form))
  {
    FormsCons(packet, from, form, [], FormEnd(form));
    assert [form] + [] == [form];
  }

  lemma {:induction false} TwoLie(packet: Octets, from: nat, first: RecordForm, second: RecordForm)
    requires RecordFits(packet, from, first) && RecordFits(packet, FormEnd(first), second)
    ensures FormsLie(packet, from, [first, second], FormEnd(second))
  {
    OneLies(packet, FormEnd(first), second);
    FormsCons(packet, from, first, [second], FormEnd(second));
    assert [first] + [second] == [first, second];
  }

  /**
   A response with one answer, of the queried type and class IN, its owner written as a pointer to the question, is
   accepted and answers it.
   */
  lemma AnswerAccepted(packet: Octets, identifier: nat, query: Query, from: nat, ttl: Octets, data: Octets)
    requires Begins(packet, identifier, query, from, 1, 0) && |ttl| == 4 && PlainData(query.kind, data) && from > 12
    requires OccursAt(packet, from, PointerWire(12) + TailWire(query.kind, 1, ttl, data))
    requires |packet| == from + 12 + |data|
    ensures Accepted(packet, identifier, query) && Answers(packet) == 1
    ensures forall records :: Fills(packet, QuestionEnd(packet), records) ==>
              |records| == 1 && Answered(records[..1], query)
  {
    var form := AnswerRecordFits(packet, from, 12, query.kind, ttl, data, query.name);
    OneLies(packet, from, form);
    assert OptsFit([form], 1);
    BeginsMessage(packet, identifier, query, from, 1, 0, [form]);
    AnswerMessage(packet, identifier, query, from, form);
  }

  lemma AnswerMessage(packet: Octets, identifier: nat, query: Query, from: nat, form: RecordForm)
    requires MessageLies(packet, identifier, query, from, [form])
    requires form.owner.name == query.name && form.kind == query.kind && form.cls == 1
    ensures Accepted(packet, identifier, query)
    ensures forall records :: Fills(packet, QuestionEnd(packet), records) ==>
              |records| == 1 && Answered(records[..1], query)
  {
    var records := MessageFills(packet, identifier, query, from, [form]);
    assert IsRecordOf(packet, records[0].start, form, records[0]);
    DirectlyAnswered(records[..1], query);
    FillsOnce(packet, QuestionEnd(packet), records);
  }

  lemma DirectlyAnswered(answers: seq<Record>, query: Query)
    requires |answers| == 1 && answers[0].cls == CLASS_IN && answers[0].kind == query.kind
    requires answers[0].owner == query.name
    ensures Answered(answers, query)
  {
    assert AliasChain(answers, [query.name]);
  }

  lemma FillsOnce(packet: Octets, from: nat, records: seq<Record>)
    requires |packet| >= 12 && Fills(packet, from, records)
    ensures forall other :: Fills(packet, from, other) ==> other == records
  {
    forall other | Fills(packet, from, other)
      ensures other == records
    {
      ChainUnique(Reader(packet), from, records, other);
    }
  }

  /** Such an alias: its owner a pointer to the question, and its data the name that is its target. */
  lemma AliasRecordFits(packet: Octets, from: nat, name: Octets, ttl: Octets, wire: Octets, target: Octets)
    returns (form: RecordForm)
    requires |ttl| == 4 && 12 < from && |wire| < 0x1_0000
    requires OccursAt(packet, from, PointerWire(12) + TailWire(5, 1, ttl, wire))
    requires Decode(packet, 12).Some? && Decode(packet, 12).value.name == name
    requires Decode(packet, from + 12) == Some(Decoded(target, from + 12 + |wire|))
    ensures RecordFits(packet, from, form) && form.kind == 5 && form.cls == 1 && form.owner.name == name
    ensures DataOf(form) == from + 12 && FormEnd(form) == from + 12 + |wire|
  {
    form := RecordForm(Decoded(name, from + 2), 5, 1, ttl, wire);
    PointedRecordFits(packet, from, 12, 5, ttl, wire, name);
  }

  /** And such an answer: its owner a pointer to any name before it, such as the alias's data. */
  lemma AnswerRecordFits(packet: Octets, at: nat, target: nat, kind: nat, ttl: Octets, data: Octets, name: Octets)
    returns (form: RecordForm)
    requires |ttl| == 4 && PlainData(kind, data) && kind < 0x1_0000 && 12 <= target < at && target < 0x4000
    requires OccursAt(packet, at, PointerWire(target) + TailWire(kind, 1, ttl, data))
    requires Decode(packet, target).Some? && Decode(packet, target).value.name == name
    ensures RecordFits(packet, at, form) && form.kind == kind && form.cls == 1 && form.owner.name == name
    ensures FormEnd(form) == at + 12 + |data|
  {
    form := RecordForm(Decoded(name, at + 2), kind, 1, ttl, data);
    PointedRecordFits(packet, at, target, kind, ttl, data, name);
  }

  /**
   A response with an alias of the queried name, and behind it an answer of the queried type owned by its target, is
   accepted and answers the question, however the two owners are written.
   */
  lemma AliasAnswerAccepted(packet: Octets, identifier: nat, query: Query, from: nat, first: RecordForm,
                            second: RecordForm, target: Octets)
    requires Begins(packet, identifier, query, from, 2, 0) && FormEnd(second) == |packet|
    requires RecordFits(packet, from, first) && RecordFits(packet, FormEnd(first), second)
    requires AliasForms(packet, query, first, second, target)
    ensures Accepted(packet, identifier, query) && Answers(packet) == 2
    ensures forall records :: Fills(packet, QuestionEnd(packet), records) ==>
              |records| == 2 && Answered(records[..2], query)
  {
    TwoLie(packet, from, first, second);
    TwoPlain(first, second);
    BeginsMessage(packet, identifier, query, from, 2, 0, [first, second]);
    AliasMessage(packet, identifier, query, from, first, second, target);
  }

  lemma TwoPlain(first: RecordForm, second: RecordForm)
    requires first.kind != 41 && second.kind != 41
    ensures OptsFit([first, second], 2)
  {
  }

  /** An alias of the queried name, and a record of the queried type that its target owns. */
  predicate AliasForms(packet: Octets, query: Query, first: RecordForm, second: RecordForm, target: Octets) {
    && first.kind == 5 && first.cls == 1 && first.owner.name == query.name
    && Decode(packet, DataOf(first)) == Some(Decoded(target, FormEnd(first)))
    && second.kind == query.kind && query.kind != 41 && second.cls == 1 && second.owner.name == target
  }

  lemma AliasMessage(packet: Octets, identifier: nat, query: Query, from: nat, first: RecordForm, second: RecordForm,
                     target: Octets)
    requires MessageLies(packet, identifier, query, from, [first, second])
    requires AliasForms(packet, query, first, second, target)
    ensures Accepted(packet, identifier, query)
    ensures forall records :: Fills(packet, QuestionEnd(packet), records) ==>
              |records| == 2 && Answered(records[..2], query)
  {
    var records := MessageFills(packet, identifier, query, from, [first, second]);
    assert IsRecordOf(packet, records[0].start, first, records[0]);
    assert IsRecordOf(packet, records[1].start, second, records[1]);
    AnsweredByAlias(records[..2], query);
    FillsOnce(packet, QuestionEnd(packet), records);
  }

  lemma AnsweredByAlias(answers: seq<Record>, query: Query)
    requires |answers| == 2 && IsAlias(answers[0]) && answers[0].owner == query.name
    requires answers[1].owner == answers[0].target && answers[1].cls == CLASS_IN && answers[1].kind == query.kind
    ensures Answered(answers, query)
  {
    var names := [query.name, answers[0].target];
    assert AliasLink(answers, names[0], names[1]);
    assert AliasChain(answers, names);
  }

  /**
   A response without answers and with an OPT record of whole options is accepted; the upper octet of that record's
   time to live is the upper part of the response code.
   */
  lemma {:induction false} OptAccepted(packet: Octets, identifier: nat, query: Query, from: nat, size: nat, ttl: Octets,
                    options: seq<EdnsOption>)
    requires Begins(packet, identifier, query, from, 0, 1) && |ttl| == 4 && size < 0x1_0000
    requires OptionsOk(options) && |OptionsWire(options)| < 0x1_0000
    requires OccursAt(packet, from, [0] + TailWire(41, size, ttl, OptionsWire(options)))
    requires |packet| == from + 11 + |OptionsWire(options)|
    ensures Accepted(packet, identifier, query) && Answers(packet) == 0
    ensures var top: int := ttl[0];
            forall records :: Fills(packet, QuestionEnd(packet), records) ==> ExtendedRcode(records) == top * 16
  {
    OccursParts(packet, from, [0], TailWire(41, size, ttl, OptionsWire(options)));
    RootDecodes(packet, from);
    var form := RecordForm(Decoded([DOT], from + 1), 41, size, ttl, OptionsWire(options));
    OneLies(packet, from, form);
    assert OptsFit([form], 0);
    BeginsMessage(packet, identifier, query, from, 0, 1, [form]);
    OptMessage(packet, identifier, query, from, form);
  }

  lemma RootDecodes(packet: Octets, offset: nat)
    requires OccursAt(packet, offset, [0])
    ensures Decode(packet, offset) == Some(Decoded([DOT], offset + 1))
  {
    RootSteps(packet, offset);
    assert Lower([]) + [DOT] == [DOT];
  }

  lemma OptMessage(packet: Octets, identifier: nat, query: Query, from: nat, form: RecordForm)
    requires MessageLies(packet, identifier, query, from, [form]) && form.kind == 41 && |form.ttl| == 4
    ensures Accepted(packet, identifier, query)
    ensures var top: int := form.ttl[0];
            forall records :: Fills(packet, QuestionEnd(packet), records) ==> ExtendedRcode(records) == top * 16
  {
    var records := MessageFills(packet, identifier, query, from, [form]);
    assert IsRecordOf(packet, records[0].start, form, records[0]);
    FillsOnce(packet, QuestionEnd(packet), records);
  }
}
