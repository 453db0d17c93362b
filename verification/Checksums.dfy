/** The internet checksum of scripts/xdp-group-fixture-client.py (section 1 of RFC 1071). */
module Checksums {
  import opened Wire

  const MODULUS := 0xFFFF
  const WORD := 0x1_0000

  /** The sum of the big-endian words, an odd last octet being the high half of a word. */
  function WordSum(data: Octets): nat {
    if |data| == 0 then 0
    else if |data| == 1 then data[0] as int * 0x100
    else U16(data, 0) + WordSum(data[2..])
  }

  /** One's-complement folding: zero stays zero, anything else goes to its residue in 1..65535. */
  function Fold(value: nat): (r: nat)
    ensures r <= MODULUS
    ensures r == 0 <==> value == 0
    ensures r % MODULUS == value % MODULUS
  {
    if value == 0 then 0 else (value - 1) % MODULUS + 1
  }

  function ChecksumOf(data: Octets): (c: nat)
    ensures c <= MODULUS
  {
    MODULUS - Fold(WordSum(data))
  }

  /** Folding the high half into the low half keeps the folded value. */
  lemma FoldStep(value: nat)
    ensures Fold(value % WORD + value / WORD) == Fold(value)
    ensures value >= WORD ==> value % WORD + value / WORD < value
  {
    var low, high := value % WORD, value / WORD;
    assert value == low + high + high * MODULUS;
    if value > 0 {
      assert low + high > 0;
      RestUnchanged(low + high - 1, high);
    }
  }

  lemma RestUnchanged(n: nat, k: nat)
    ensures (n + k * MODULUS) % MODULUS == n % MODULUS
  {
    var q, r := n / MODULUS, n % MODULUS;
    assert n + k * MODULUS == (q + k) * MODULUS + r;
  }

  method SumWords(data: Octets) returns (value: nat)
    requires |data| % 2 == 0
    ensures value == WordSum(data)
  {
    value := 0;
    var i := 0;
    assert data[0..] == data;
    while i < |data|
      invariant 0 <= i <= |data| && i % 2 == 0
      invariant value + WordSum(data[i..]) == WordSum(data)
    {
      TakeWord(data, i);
      value := value + U16(data, i);
      i := i + 2;
    }
  }

  method Checksum(data: Octets) returns (c: nat)
    ensures c == ChecksumOf(data)
  {
    var padded := data;
    if |data| % 2 == 1 {
      PaddingKeeps(data);
      padded := data + [0];
    }
    var value: nat := SumWords(padded);
    while value >= WORD
      invariant Fold(value) == Fold(WordSum(data))
    {
      FoldStep(value);
      value := value % WORD + value / WORD;
    }
    FoldSmall(value);
    c := WORD - 1 - value;
  }

  lemma FoldSmall(value: nat)
    requires value < WORD
    ensures Fold(value) == value
  {
  }

  lemma TakeWord(data: Octets, i: nat)
    requires i + 2 <= |data|
    ensures WordSum(data[i..]) == U16(data, i) + WordSum(data[i + 2..])
  {
    assert data[i..][2..] == data[i + 2..];
  }

  lemma {:induction false} PaddingKeeps(data: Octets)
    requires |data| % 2 == 1
    ensures WordSum(data + [0]) == WordSum(data)
  {
    if |data| > 1 {
      PaddingKeeps(data[2..]);
      assert (data + [0])[2..] == data[2..] + [0];
    }
  }

  /** The sum of a concatenation, when the first part is whole words. */
  lemma {:induction false} WordSumConcat(a: Octets, b: Octets)
    requires |a| % 2 == 0
    ensures WordSum(a + b) == WordSum(a) + WordSum(b)
  {
    if |a| == 0 {
      assert a + b == b;
    } else {
      WordSumConcat(a[2..], b);
      assert (a + b)[2..] == a[2..] + b;
    }
  }

  /** The data with the word at `at` replaced. */
  function Write(data: Octets, at: nat, word: nat): (r: Octets)
    requires at + 2 <= |data| && word < WORD
    ensures |r| == |data|
  {
    data[..at] + [word / 0x100, word % 0x100] + data[at + 2..]
  }

  lemma {:induction false} ThreeParts(before: Octets, middle: Octets, after: Octets)
    requires |before| % 2 == 0 && |middle| == 2
    ensures WordSum(before + middle + after) == WordSum(before) + U16(middle, 0) + WordSum(after)
  {
    WordSumConcat(before + middle, after);
    WordSumConcat(before, middle);
    assert middle[2..] == [];
  }

  lemma CutThree<T>(s: seq<T>, i: nat, j: nat)
    requires i <= j <= |s|
    ensures s == s[..i] + s[i..j] + s[j..]
  {
  }

  lemma {:induction false} WriteSum(data: Octets, at: nat, word: nat)
    requires at % 2 == 0 && at + 2 <= |data| && word < WORD
    ensures WordSum(Write(data, at, word)) == WordSum(data) - U16(data, at) + word
  {
    var was, now: Octets := data[at..at + 2], [word / 0x100, word % 0x100];
    CutThree(data, at, at + 2);
    ThreeParts(data[..at], was, data[at + 2..]);
    ThreeParts(data[..at], now, data[at + 2..]);
    assert U16(was, 0) == U16(data, at);
    assert U16(now, 0) == word;
  }

  /** Data verifies exactly when its words, not all zero, sum to a multiple of 65535. */
  lemma {:induction false} VerifiesExactly(data: Octets)
    ensures ChecksumOf(data) == 0 <==> WordSum(data) > 0 && WordSum(data) % MODULUS == 0
  {
    var f := Fold(WordSum(data));
    assert f % MODULUS == WordSum(data) % MODULUS;
    assert f == MODULUS <==> f > 0 && f % MODULUS == 0;
  }

  /**
   Writing the checksum into its zeroed field makes the data verify, at any word and for
   any length. Where the checksum is zero, all ones verifies as well.
   */
  lemma InsertedVerifies(data: Octets, at: nat)
    requires at % 2 == 0 && at + 2 <= |data| && U16(data, at) == 0
    ensures ChecksumOf(Write(data, at, ChecksumOf(data))) == 0
    ensures ChecksumOf(data) == 0 ==> ChecksumOf(Write(data, at, MODULUS)) == 0
  {
    var sum, c := WordSum(data), ChecksumOf(data);
    WriteSum(data, at, c);
    VerifiesExactly(Write(data, at, c));
    WriteSum(data, at, MODULUS);
    VerifiesExactly(Write(data, at, MODULUS));
    VerifiesExactly(data);
    ComplementSum(sum);
    RestUnchanged(sum, 1);
  }

  lemma ComplementSum(sum: nat)
    ensures sum + MODULUS - Fold(sum) > 0
    ensures (sum + MODULUS - Fold(sum)) % MODULUS == 0
  {
    if sum > 0 {
      var q := (sum - 1) / MODULUS;
      assert sum == q * MODULUS + Fold(sum);
      assert sum + MODULUS - Fold(sum) == (q + 1) * MODULUS;
      RestUnchanged(0, q + 1);
    }
  }

  /**
   Damage to one word of verifying data goes unnoticed exactly when it swaps the two forms
   of zero, 0 and 65535, and some other word is non-zero or the new one is 65535.
   */
  lemma {:induction false} SingleWordDamage(data: Octets, at: nat, word: nat)
    requires at % 2 == 0 && at + 2 <= |data| && word < WORD
    requires ChecksumOf(data) == 0 && word != U16(data, at)
    ensures ChecksumOf(Write(data, at, word)) == 0 <==>
            || (U16(data, at) == 0 && word == MODULUS)
            || (U16(data, at) == MODULUS && word == 0 && WordSum(data) > MODULUS)
  {
    WriteSum(data, at, word);
    VerifiesExactly(data);
    VerifiesExactly(Write(data, at, word));
    ShiftedMultiple(WordSum(data), word - U16(data, at));
  }

  /** A positive multiple of 65535 moved by a difference of two words. */
  lemma ShiftedMultiple(sum: nat, d: int)
    requires sum > 0 && sum % MODULUS == 0 && -MODULUS <= d <= MODULUS && d != 0 && sum + d >= 0
    ensures sum + d > 0 && (sum + d) % MODULUS == 0 <==> d == MODULUS || (d == -MODULUS && sum > MODULUS)
  {
    var q := sum / MODULUS;
    assert sum == q * MODULUS;
    if d > 0 {
      RestUnchanged(d, q);
    } else {
      assert sum + d == (MODULUS + d) + (q - 1) * MODULUS;
      RestUnchanged(MODULUS + d, q - 1);
    }
  }

  // ------------------------------------------------------------------ the frame the client builds

  const HEADER_LENGTH := 20
  const CHECKSUM_AT := 10

  /** The IPv4 header before its checksum: version, total length, time to live, UDP, both addresses. */
  function BlankHeader(udpLength: nat, source: Octets, destination: Octets): (h: Octets)
    requires udpLength + HEADER_LENGTH < WORD && |source| == 4 && |destination| == 4
    ensures |h| == HEADER_LENGTH
  {
    var total := udpLength + HEADER_LENGTH;
    [0x45, 0, total / 0x100, total % 0x100, 0, 0, 0, 0, 64, 17, 0, 0] + source + destination
  }

  lemma BlankAddresses(udpLength: nat, source: Octets, destination: Octets)
    requires udpLength + HEADER_LENGTH < WORD && |source| == 4 && |destination| == 4
    ensures var h := BlankHeader(udpLength, source, destination); h[12..16] == source && h[16..20] == destination
  {
    var total := udpLength + HEADER_LENGTH;
    var front: Octets := [0x45, 0, total / 0x100, total % 0x100, 0, 0, 0, 0, 64, 17, 0, 0];
    var h := front + source + destination;
    assert h[12..16] == source;
    assert h[16..20] == destination;
  }

  method BuildHeader(udpLength: nat, source: Octets, destination: Octets) returns (header: Octets)
    requires udpLength + HEADER_LENGTH < WORD && |source| == 4 && |destination| == 4
    ensures |header| == HEADER_LENGTH && ChecksumOf(header) == 0
    ensures U16(header, 2) == udpLength + HEADER_LENGTH
    ensures header[0] == 0x45 && header[1] == 0 && header[4..8] == [0, 0, 0, 0] && header[8] == 64 && header[9] == 17
    ensures header[12..16] == source && header[16..20] == destination
    ensures Write(header, CHECKSUM_AT, 0) == BlankHeader(udpLength, source, destination)
  {
    var blank := BlankHeader(udpLength, source, destination);
    var c := Checksum(blank);
    header := blank[..10] + [c / 0x100, c % 0x100] + blank[12..];
    InsertedVerifies(blank, CHECKSUM_AT);
    assert header == Write(blank, CHECKSUM_AT, c);
    assert header[2] == blank[2] && header[3] == blank[3];
    assert header[4..8] == [header[4], header[5], header[6], header[7]];
    BlankAddresses(udpLength, source, destination);
    assert header[12..16] == blank[12..16] && header[16..20] == blank[16..20];
    assert Write(header, CHECKSUM_AT, 0) == blank[..10] + [0, 0] + blank[12..] == blank;
  }
}
