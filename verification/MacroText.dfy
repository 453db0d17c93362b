/**
 The text a log macro stands in, as a grammar: code, string and character literals, line comments and nested block
 comments. It says where a call really closes, and knows nothing of how the scanner looks for it.
 */
module MacroText {
  import opened Sequences

  // ------------------------------------------------------------------ literals

  /** Backslashes standing immediately before position `j`. */
  function Backslashes(body: string, j: nat): nat
    requires j <= |body|
  {
    if j == 0 || body[j - 1] != '\\' then 0 else Backslashes(body, j - 1) + 1
  }

  predicate Escaped(body: string, j: nat)
    requires j <= |body|
  {
    Backslashes(body, j) % 2 == 1
  }

  predicate IsQuote(c: char) {
    c == '"' || c == '\''
  }

  /** No quote in the text ends a literal. */
  predicate AllEscaped(text: string, quote: char) {
    forall j :: 0 <= j < |text| && text[j] == quote ==> Escaped(text, j)
  }

  /** Every quote in the body is escaped, and so is not the one that follows it. */
  predicate QuotedBody(body: string, quote: char) {
    AllEscaped(body, quote) && !Escaped(body, |body|)
  }

  // ------------------------------------------------------------------ block comments

  /** What stands in a block comment: letters and whole comments. */
  datatype Comment = Empty | Letter(c: char, rest: Comment) | Nested(inner: Comment, rest: Comment)

  function CommentText(b: Comment): string {
    match b
    case Empty => ""
    case Letter(c, rest) => [c] + CommentText(rest)
    case Nested(inner, rest) => "/*" + CommentText(inner) + "*/" + CommentText(rest)
  }

  /** The first character of a body and the mark that ends it. */
  function First(b: Comment): char {
    match b
    case Empty => '*'
    case Letter(c, _) => c
    case Nested(_, _) => '/'
  }

  /** No letter makes an opening or a closing mark with what follows it. */
  predicate CommentOk(b: Comment) {
    match b
    case Empty => true
    case Letter(c, rest) => !(c == '/' && First(rest) == '*') && !(c == '*' && First(rest) == '/') && CommentOk(rest)
    case Nested(inner, rest) => CommentOk(inner) && CommentOk(rest)
  }

  // ------------------------------------------------------------------ whole texts

  datatype Piece = Plain(c: char) | Quoted(quote: char, body: string) | Line(body: string) | Block(comment: Comment)

  function PieceText(piece: Piece): string {
    match piece
    case Plain(c) => [c]
    case Quoted(quote, body) => [quote] + body + [quote]
    case Line(body) => "//" + body + "\n"
    case Block(comment) => "/*" + CommentText(comment) + "*/"
  }

  function Text(pieces: seq<Piece>): string {
    if |pieces| == 0 then "" else PieceText(pieces[0]) + Text(pieces[1..])
  }

  predicate StartsWith(text: string, c: char) {
    |text| > 0 && text[0] == c
  }

  /** The piece is what it claims to be in front of `rest`: code holds no quote and begins no comment. */
  predicate PieceOk(piece: Piece, rest: string) {
    match piece
    case Plain(c) => !IsQuote(c) && !(c == '/' && (StartsWith(rest, '/') || StartsWith(rest, '*')))
    case Quoted(quote, body) => IsQuote(quote) && QuotedBody(body, quote)
    case Line(body) => '\n' !in body
    case Block(comment) => CommentOk(comment)
  }

  predicate OpensQuote(tail: string) {
    |tail| > 0 && IsQuote(tail[0]) && AllEscaped(tail[1..], tail[0])
  }

  predicate OpensLine(tail: string) {
    |tail| > 1 && tail[..2] == "//" && '\n' !in tail
  }

  ghost predicate OpensBlock(tail: string) {
    && |tail| > 1 && tail[..2] == "/*"
    && forall b, rest: string :: CommentOk(b) ==> tail[2..] != CommentText(b) + "*/" + rest
  }

  /** What may be left at the end: nothing, or a literal or comment that is never ended. */
  ghost predicate TailOk(tail: string) {
    tail == "" || OpensQuote(tail) || OpensLine(tail) || OpensBlock(tail)
  }

  /** Every piece is what it claims to be in front of what follows it, up to `rest`. */
  ghost predicate PiecesOk(pieces: seq<Piece>, rest: string) {
    forall i :: 0 <= i < |pieces| ==> PieceOkAt(pieces, rest, i)
  }

  predicate PieceOkAt(pieces: seq<Piece>, rest: string, i: nat)
    requires i < |pieces|
  {
    PieceOk(pieces[i], Text(pieces[i + 1..]) + rest)
  }

  /** The pieces, with `tail` behind them, are a reading of their text. */
  ghost predicate Reading(pieces: seq<Piece>, tail: string) {
    PiecesOk(pieces, tail) && TailOk(tail)
  }

  lemma PiecesOkTail(pieces: seq<Piece>, rest: string)
    requires |pieces| > 0 && PiecesOk(pieces, rest)
    ensures PieceOk(pieces[0], Text(pieces[1..]) + rest) && PiecesOk(pieces[1..], rest)
  {
    assert PieceOkAt(pieces, rest, 0);
    var more := pieces[1..];
    forall i | 0 <= i < |more|
      ensures PieceOkAt(more, rest, i)
    {
      assert PieceOkAt(pieces, rest, i + 1);
      assert more[i + 1..] == pieces[i + 2..];
    }
  }

  lemma {:induction false} PiecesOkCons(piece: Piece, pieces: seq<Piece>, rest: string)
    requires PieceOk(piece, Text(pieces) + rest) && PiecesOk(pieces, rest)
    ensures PiecesOk([piece] + pieces, rest)
  {
    var all := [piece] + pieces;
    forall i | 0 <= i < |all|
      ensures PieceOkAt(all, rest, i)
    {
      assert all[i + 1..] == pieces[i..];
      if i > 0 {
        assert PieceOkAt(pieces, rest, i - 1);
      } else {
        assert pieces[0..] == pieces;
      }
    }
  }

  lemma {:induction false} TextCons(piece: Piece, pieces: seq<Piece>)
    ensures Text([piece] + pieces) == PieceText(piece) + Text(pieces)
  {
    assert ([piece] + pieces)[1..] == pieces;
  }

  function Spaces(n: nat): (s: string)
    ensures |s| == n
  {
    if n == 0 then "" else [' '] + Spaces(n - 1)
  }

  /** The code alone: every literal and comment is blanked. */
  function Blank(pieces: seq<Piece>): string {
    if |pieces| == 0 then ""
    else BlankPiece(pieces[0]) + Blank(pieces[1..])
  }

  function BlankPiece(piece: Piece): (s: string)
    ensures |s| == |PieceText(piece)|
  {
    if piece.Plain? then [piece.c] else Spaces(|PieceText(piece)|)
  }

  lemma {:induction false} BlankLength(pieces: seq<Piece>)
    ensures |Blank(pieces)| == |Text(pieces)|
  {
    if |pieces| > 0 {
      BlankLength(pieces[1..]);
    }
  }

  // ------------------------------------------------------------------ balance

  function Weight(c: char): int {
    if c == '(' then 1 else if c == ')' then -1 else 0
  }

  function Balance(text: string, n: nat): int
    requires n <= |text|
  {
    if n == 0 then 0 else Balance(text, n - 1) + Weight(text[n - 1])
  }

  /** The parentheses up to and with position `k` balance, and those up to any earlier one do not. */
  predicate BalancesFirst(text: string, k: nat) {
    k < |text| && Balance(text, k + 1) == 0 && forall n :: 0 < n <= k ==> OpenAt(text, n)
  }

  /** More parentheses open than close in the first `n` characters. */
  predicate OpenAt(text: string, n: nat)
    requires n <= |text|
  {
    Balance(text, n) > 0
  }

  lemma {:induction false} BalancePrefix(text: string, more: string, n: nat)
    requires n <= |text|
    ensures Balance(text + more, n) == Balance(text, n)
  {
    if n > 0 {
      BalancePrefix(text, more, n - 1);
    }
  }

  lemma {:induction false} BalanceConcat(a: string, b: string, n: nat)
    requires |a| <= n <= |a| + |b|
    ensures Balance(a + b, n) == Balance(a, |a|) + Balance(b, n - |a|)
    decreases n
  {
    if n == |a| {
      BalancePrefix(a, b, n);
    } else {
      BalanceConcat(a, b, n - 1);
    }
  }

  lemma {:induction false} BalanceSpaces(n: nat, k: nat)
    requires k <= n
    ensures Balance(Spaces(n), k) == 0
    decreases k
  {
    if k > 0 {
      BalanceSpaces(n, k - 1);
      SpacesAt(n, k - 1);
    }
  }

  lemma {:induction false} SpacesAt(n: nat, i: nat)
    requires i < n
    ensures Spaces(n)[i] == ' '
  {
    if i > 0 {
      SpacesAt(n - 1, i - 1);
    }
  }

  /**
   Blanking a stretch `code` of a text moves its first balance exactly when that balance lies in the stretch, or lies
   behind it and the parentheses of the stretch do not balance.
   */
  lemma {:induction false} BlankedStretch(a: string, code: string, b: string, k: nat)
    requires |a| > 0 && BalancesFirst(a + code + b, k)
    ensures BalancesFirst(a + Spaces(|code|) + b, k) <==> k < |a| || (k >= |a| + |code| && Balance(code, |code|) == 0)
  {
    var whole, blanked, n := a + code + b, a + Spaces(|code|) + b, |code|;
    var f, g := BalanceOf(whole), BalanceOf(blanked);
    forall i: nat | i <= |whole|
      ensures g(i) == if i <= |a| then f(i) else if i <= |a| + n then f(|a|) else f(i) - Balance(code, n)
    {
      BlankedBalance(a, code, b, i);
    }
    FirstZeroIsBalance(whole, k);
    FirstZeroMoves(f, g, |a|, n, |whole|, Balance(code, n), k);
    FirstZeroIsBalance(blanked, k);
  }

  lemma {:induction false} BlankedBalance(a: string, code: string, b: string, i: nat)
    requires i <= |a| + |code| + |b|
    ensures Balance(a + Spaces(|code|) + b, i) ==
            if i <= |a| then Balance(a + code + b, i)
            else if i <= |a| + |code| then Balance(a + code + b, |a|)
            else Balance(a + code + b, i) - Balance(code, |code|)
  {
    var n := |code|;
    BalanceThree(a, code, b, i);
    BalanceThree(a, Spaces(n), b, i);
    BalanceThree(a, code, b, |a|);
    BalanceSpaces(n, if i <= |a| then 0 else if i <= |a| + n then i - |a| else n);
  }

  lemma FirstZeroIsBalance(text: string, k: nat)
    ensures FirstZero(BalanceOf(text), |text|, k) == BalancesFirst(text, k)
  {
    var f := BalanceOf(text);
    assert forall i: nat :: i <= |text| ==> (f(i) > 0 <==> OpenAt(text, i));
  }

  function BalanceOf(text: string): nat -> int {
    (i: nat) => if i <= |text| then Balance(text, i) else 0
  }

  ghost predicate FirstZero(f: nat -> int, length: nat, k: nat) {
    k < length && f(k + 1) == 0 && forall n: nat :: 0 < n <= k ==> f(n) > 0
  }

  lemma FirstZeroMoves(f: nat -> int, g: nat -> int, start: nat, n: nat, length: nat, shift: int, k: nat)
    requires 0 < start && start + n <= length && FirstZero(f, length, k)
    requires forall i: nat :: i <= length ==>
               g(i) == if i <= start then f(i) else if i <= start + n then f(start) else f(i) - shift
    ensures FirstZero(g, length, k) <==> k < start || (k >= start + n && shift == 0)
  {
    if k >= start {
      assert f(start) > 0;
    }
  }

  lemma BalanceThree(a: string, m: string, b: string, i: nat)
    requires i <= |a| + |m| + |b|
    ensures Balance(a + m + b, i) == if i <= |a| then Balance(a, i)
            else if i <= |a| + |m| then Balance(a, |a|) + Balance(m, i - |a|)
                                     else Balance(a, |a|) + Balance(m, |m|) + Balance(b, i - |a| - |m|)
  {
    if i <= |a| + |m| {
      BalancePrefix(a + m, b, i);
      if i <= |a| {
        BalancePrefix(a, m, i);
      } else {
        BalanceConcat(a, m, i);
      }
    } else {
      BalanceConcat(a + m, b, i);
      BalanceConcat(a, m, |a| + |m|);
    }
  }

  lemma BlankOne(piece: Piece)
    ensures Blank([piece]) == BlankPiece(piece)
  {
    assert [piece][1..] == [];
  }

  /** The pieces' texts under `f`, one after another. */
  function Joined<T>(f: T -> string, s: seq<T>): string {
    if |s| == 0 then "" else f(s[0]) + Joined(f, s[1..])
  }

  lemma {:induction false} JoinedConcat<T>(f: T -> string, a: seq<T>, b: seq<T>)
    ensures Joined(f, a + b) == Joined(f, a) + Joined(f, b)
  {
    if |a| == 0 {
      assert a + b == b;
    } else {
      JoinedConcat(f, a[1..], b);
      assert (a + b)[1..] == a[1..] + b;
      ConcatAssociates(f(a[0]), Joined(f, a[1..]), Joined(f, b));
    }
  }

  lemma {:induction false} BlankIsJoined(pieces: seq<Piece>)
    ensures Blank(pieces) == Joined(BlankPiece, pieces)
  {
    if |pieces| > 0 {
      BlankIsJoined(pieces[1..]);
    }
  }

  lemma {:induction false} BlankConcat(a: seq<Piece>, b: seq<Piece>)
    ensures Blank(a + b) == Blank(a) + Blank(b)
  {
    BlankIsJoined(a);
    BlankIsJoined(b);
    BlankIsJoined(a + b);
    JoinedConcat(BlankPiece, a, b);
  }

  lemma {:induction false} TextIsJoined(pieces: seq<Piece>)
    ensures Text(pieces) == Joined(PieceText, pieces)
  {
    if |pieces| > 0 {
      TextIsJoined(pieces[1..]);
    }
  }

  lemma {:induction false} TextConcat(a: seq<Piece>, b: seq<Piece>)
    ensures Text(a + b) == Text(a) + Text(b)
  {
    TextIsJoined(a);
    TextIsJoined(b);
    TextIsJoined(a + b);
    JoinedConcat(PieceText, a, b);
  }

  lemma {:induction false} TextBehind(a: seq<Piece>, b: seq<Piece>, rest: string)
    ensures Text(a + b) + rest == Text(a) + (Text(b) + rest)
  {
    TextConcat(a, b);
    ConcatAssociates(Text(a), Text(b), rest);
  }

  lemma {:induction false} PiecesOkConcat(a: seq<Piece>, b: seq<Piece>, rest: string)
    requires PiecesOk(a, Text(b) + rest) && PiecesOk(b, rest)
    ensures PiecesOk(a + b, rest)
  {
    if |a| == 0 {
      assert a + b == b;
    } else {
      PiecesOkTail(a, Text(b) + rest);
      PiecesOkConcat(a[1..], b, rest);
      PiecesOkBehind(a[0], a[1..], b, rest);
      HeadConcat(a, b);
    }
  }

  lemma {:induction false} PiecesOkBehind(piece: Piece, a: seq<Piece>, b: seq<Piece>, rest: string)
    requires PieceOk(piece, Text(a) + (Text(b) + rest)) && PiecesOk(a + b, rest)
    ensures PiecesOk([piece] + (a + b), rest)
  {
    TextBehind(a, b, rest);
    PiecesOkCons(piece, a + b, rest);
  }

  /** A balance inside a prefix does not depend on what follows. */
  lemma BalancesFirstPrefix(text: string, more: string, k: nat)
    requires k < |text|
    ensures BalancesFirst(text + more, k) <==> BalancesFirst(text, k)
  {
    forall n: nat | n <= |text|
      ensures OpenAt(text + more, n) == OpenAt(text, n)
    {
      BalancePrefix(text, more, n);
    }
    BalancePrefix(text, more, k + 1);
  }

  /** Spaces behind a text add no balance. */
  lemma {:induction false} BalancesFirstSpaces(text: string, n: nat, k: nat)
    requires |text| > 0
    ensures BalancesFirst(text + Spaces(n), k) <==> BalancesFirst(text, k)
  {
    var longer := text + Spaces(n);
    if k < |text| {
      BalancesFirstPrefix(text, Spaces(n), k);
    } else if k < |longer| {
      assert Balance(longer, k + 1) == Balance(longer, k) + Weight(longer[k]);
      SpacesAt(n, k - |text|);
      assert longer[k] == ' ';
      assert BalancesFirst(longer, k) ==> OpenAt(longer, k);
    }
  }

  /** How far the count of `seen` is behind that of `code` after `n` characters. */
  function Missed(code: string, seen: string, n: nat): int
    requires n <= |code| && n <= |seen|
  {
    Balance(code, n) - Balance(seen, n)
  }

  /** Nothing is missed at the close, and never so much in front of it that the count comes to zero. */
  ghost predicate MissesNothing(code: string, seen: string, k: nat)
    requires k < |code| && k < |seen|
  {
    Missed(code, seen, k + 1) == 0 && forall n :: 0 < n <= k ==> MissesLess(code, seen, n)
  }

  predicate MissesLess(code: string, seen: string, n: nat)
    requires n <= |code| && n <= |seen|
  {
    Missed(code, seen, n) < Balance(code, n)
  }

  /** Where `code` first balances, `seen` does too exactly when it misses nothing. */
  lemma SameFirstBalance(code: string, seen: string, k: nat)
    requires |code| == |seen| && BalancesFirst(code, k)
    ensures BalancesFirst(seen, k) <==> MissesNothing(code, seen, k)
  {
    forall n: nat | n <= |code|
      ensures MissesLess(code, seen, n) == OpenAt(seen, n)
    {
    }
    if BalancesFirst(seen, k) {
      forall n | 0 < n <= k
        ensures MissesLess(code, seen, n)
      {
        assert OpenAt(seen, n);
      }
    }
    if MissesNothing(code, seen, k) {
      forall n | 0 < n <= k
        ensures OpenAt(seen, n)
      {
        assert MissesLess(code, seen, n);
      }
    }
  }

  lemma BalancesFirstUnique(text: string, j: nat, k: nat)
    requires BalancesFirst(text, j) && BalancesFirst(text, k)
    ensures j == k
  {
    assert j < k ==> OpenAt(text, j + 1);
    assert k < j ==> OpenAt(text, k + 1);
  }
}
