/** The scanner finds where a call really closes: its answer on every text, against the grammar of the text. */
module MacroClose {
  import opened MacroScanner
  import opened MacroText
  import opened Options
  import opened Sequences

  // ------------------------------------------------------------------ the scanner steps over the grammar's pieces

  lemma {:induction false} CommentFirst(b: Comment, rest: string)
    ensures (CommentText(b) + "*/" + rest)[0] == First(b)
  {
  }

  lemma {:induction false} CommentIsBody(b: Comment)
    requires CommentOk(b)
    ensures BlockBody(CommentText(b), '*')
  {
    match b
    case Empty =>
      assert Flat("", '*');
      FlatIsBlockBody("", '*');
    case Letter(c, rest) =>
      CommentIsBody(rest);
      CommentFirst(rest, "");
      assert Flat([c], First(rest));
      FlatIsBlockBody([c], First(rest));
      if rest.Empty? {
        assert CommentText(b) == [c];
      } else {
        BlockBodyConcat([c], CommentText(rest), '*');
      }
    case Nested(inner, rest) =>
      CommentIsBody(inner);
      CommentIsBody(rest);
      CommentFirst(rest, "");
      var comment := "/*" + CommentText(inner) + "*/";
      CommentIsBlockBody(CommentText(inner), First(rest));
      if rest.Empty? {
        assert CommentText(b) == comment;
      } else {
        BlockBodyConcat(comment, CommentText(rest), '*');
      }
  }

  lemma PieceSteppedOver(piece: Piece, rest: string)
    requires !piece.Plain? && PieceOk(piece, rest)
    ensures SteppedOver(PieceText(piece))
  {
    match piece
    case Quoted(quote, body) => QuotedSteppedOver(body, quote);
    case Line(body) => LineSteppedOver(body);
    case Block(comment) =>
      CommentIsBody(comment);
      BlockSteppedOver(CommentText(comment));
  }

  // ------------------------------------------------------------------ literals and comments that are never ended

  /** Inside a quote that is not ended, no parenthesis closes. */
  lemma {:induction false} UnendedQuote(text: string, quote: char, j: nat, depth: int)
    requires IsQuote(quote) && AllEscaped(text, quote) && j <= |text|
    ensures Close(text, State(j, Quoting(quote, Escaped(text, j)), depth)) == None
    decreases |text| - j
  {
    if j < |text| {
      UnendedQuote(text, quote, j + 1, depth);
    }
  }

  lemma {:induction false} UnendedLine(text: string, depth: int)
    requires '\n' !in text
    ensures Close(text, State(0, InLine, depth)) == None
  {
    LineScan(text, "", 0, depth);
    assert text + "" == text;
    PassesKeepsClose(text, State(0, InLine, depth), State(|text|, InLine, depth));
  }

  /** Inside a block comment no parenthesis closes from here on, at any nesting. */
  ghost predicate NeverLeft(text: string) {
    forall n: nat, depth: int :: n > 0 ==> NoneInside(text, n, depth)
  }

  predicate NoneInside(text: string, n: nat, depth: int) {
    Close(text, State(0, InBlock(n), depth)) == None
  }

  /** Text inside a comment either goes on to the comment's end, or is never left. */
  lemma {:induction false} ReadComment(text: string) returns (ended: bool, b: Comment, rest: string)
    ensures ended ==> CommentOk(b) && text == CommentText(b) + "*/" + rest
    ensures !ended ==> NeverLeft(text)
    decreases |text|
  {
    ended, b, rest := false, Empty, "";
    if |text| == 0 {
    } else if |text| > 1 && text[..2] == "*/" {
      ended, rest := true, text[2..];
      assert text == CommentText(Empty) + "*/" + rest;
    } else if |text| > 1 && text[..2] == "/*" {
      ended, b, rest := ReadNested(text);
    } else {
      ended, b, rest := ReadComment(text[1..]);
      if ended {
        CommentFirst(b, rest);
        assert |text| > 1 && text[1] == First(b);
        assert text[..2] == [text[0], text[1]];
        b := Letter(text[0], b);
        assert text == [text[0]] + text[1..];
      } else {
        LetterNeverLeft(text);
      }
    }
  }

  lemma {:induction false} ReadNested(text: string) returns (ended: bool, b: Comment, rest: string)
    requires |text| > 1 && text[..2] == "/*"
    ensures ended ==> CommentOk(b) && text == CommentText(b) + "*/" + rest
    ensures !ended ==> NeverLeft(text)
    decreases |text|, 0
  {
    var inner, tail, more;
    ended, inner, tail := ReadComment(text[2..]);
    assert text == "/*" + text[2..];
    if !ended {
      OpenNeverLeft(text[2..]);
      b, rest := Empty, "";
    } else {
      ended, more, rest := ReadComment(tail);
      b := Nested(inner, more);
      var comment := "/*" + CommentText(inner) + "*/";
      assert text == comment + tail;
      if ended {
        assert text == comment + (CommentText(more) + "*/" + rest);
      } else {
        CommentIsBody(inner);
        NestedNeverLeft(comment, CommentText(inner), tail);
      }
    }
  }

  lemma LetterNeverLeft(text: string)
    requires |text| > 0 && NeverLeft(text[1..])
    requires !(|text| > 1 && (text[..2] == "/*" || text[..2] == "*/"))
    ensures NeverLeft(text)
  {
    forall n: nat, depth: int | n > 0
      ensures NoneInside(text, n, depth)
    {
      assert NoneInside(text[1..], n, depth);
      if |text| > 1 {
        assert text[..2] == [text[0], text[1]];
      }
      CloseShifts([text[0]], text[1..], State(0, InBlock(n), depth));
      assert text == [text[0]] + text[1..];
    }
  }

  lemma OpenNeverLeft(rest: string)
    requires NeverLeft(rest)
    ensures NeverLeft("/*" + rest)
  {
    forall n: nat, depth: int | n > 0
      ensures NoneInside("/*" + rest, n, depth)
    {
      assert NoneInside(rest, n + 1, depth);
      CloseShifts("/*", rest, State(0, InBlock(n + 1), depth));
    }
  }

  lemma NestedNeverLeft(comment: string, inner: string, tail: string)
    requires comment == "/*" + inner + "*/" && BlockBody(inner, '*') && NeverLeft(tail)
    ensures NeverLeft(comment + tail)
  {
    forall n: nat, depth: int | n > 0
      ensures NoneInside(comment + tail, n, depth)
    {
      assert NoneInside(tail, n, depth);
      CommentInside(inner, tail, n, depth);
      PassesKeepsClose(comment + tail, State(0, InBlock(n), depth), State(|comment|, InBlock(n), depth));
      CloseShifts(comment, tail, State(0, InBlock(n), depth));
    }
  }

  /** Once a literal or comment that is never ended begins, nothing closes. */
  lemma {:induction false} TailNeverCloses(tail: string, depth: int)
    requires TailOk(tail)
    ensures Close(tail, State(0, Code, depth)) == None
  {
    if OpensQuote(tail) {
      UnendedQuote(tail[1..], tail[0], 0, depth);
      CloseShifts([tail[0]], tail[1..], State(0, Quoting(tail[0], false), depth));
      assert tail == [tail[0]] + tail[1..];
    } else if OpensLine(tail) {
      UnendedLine(tail[2..], depth);
      CloseShifts("//", tail[2..], State(0, InLine, depth));
      assert tail == "//" + tail[2..];
      assert Next(tail, State(0, Code, depth)) == State(2, InLine, depth);
    } else if OpensBlock(tail) {
      var ended, b, rest := ReadComment(tail[2..]);
      assert NoneInside(tail[2..], 1, depth);
      CloseShifts("/*", tail[2..], State(0, InBlock(1), depth));
      assert tail == "/*" + tail[2..];
      assert Next(tail, State(0, Code, depth)) == State(2, InBlock(1), depth);
    }
  }

  // ------------------------------------------------------------------ scanning is counting

  /** At `p` a parenthesis closes, and at none before it did the count from `depth` come to zero. */
  predicate ClosesFirst(text: string, depth: int, p: nat) {
    && p < |text| && text[p] == ')' && depth + Balance(text, p + 1) == 0
    && forall q :: 0 <= q < p ==> StaysOpen(text, depth, q)
  }

  /** No parenthesis at `q` brings the count from `depth` to zero. */
  predicate StaysOpen(text: string, depth: int, q: nat)
    requires q < |text|
  {
    text[q] == ')' ==> depth + Balance(text, q + 1) != 0
  }

  lemma {:induction false} BalanceCons(c: char, rest: string, n: nat)
    requires n <= |rest|
    ensures Balance([c] + rest, n + 1) == Weight(c) + Balance(rest, n)
  {
    if n > 0 {
      BalanceCons(c, rest, n - 1);
    }
  }

  lemma StaysOpenCons(c: char, rest: string, depth: int, q: nat)
    requires q < |rest|
    ensures StaysOpen([c] + rest, depth, q + 1) == StaysOpen(rest, depth + Weight(c), q)
  {
    BalanceCons(c, rest, q + 1);
  }

  lemma ClosesFirstCons(c: char, rest: string, depth: int, p: nat)
    ensures ClosesFirst([c] + rest, depth, p) <==>
            if c == ')' && depth == 1 then p == 0 else p > 0 && ClosesFirst(rest, depth + Weight(c), p - 1)
  {
    var text := [c] + rest;
    assert Balance(text, 1) == Balance(text, 0) + Weight(c);
    if 0 < p < |text| {
      BalanceCons(c, rest, p);
      assert StaysOpen(text, depth, 0) == !(c == ')' && depth == 1);
      var deeper := depth + Weight(c);
      if ClosesFirst(text, depth, p) {
        forall q | 0 <= q < p - 1
          ensures StaysOpen(rest, deeper, q)
        {
          assert StaysOpen(text, depth, q + 1);
          StaysOpenCons(c, rest, depth, q);
        }
      }
      if !(c == ')' && depth == 1) && ClosesFirst(rest, depth + Weight(c), p - 1) {
        forall q | 0 <= q < p
          ensures StaysOpen(text, depth, q)
        {
          if q > 0 {
            assert StaysOpen(rest, depth + Weight(c), q - 1);
            StaysOpenCons(c, rest, depth, q - 1);
          }
        }
      }
    }
  }

  /** Where the parentheses of `code` close, counting from `depth`. */
  function CountClose(code: string, depth: int): (r: Option<nat>) {
    if |code| == 0 then None
    else if code[0] == ')' && depth == 1 then Some(0)
    else Moved(CountClose(code[1..], depth + Weight(code[0])), 1)
  }

  function Moved(r: Option<nat>, k: nat): Option<nat> {
    match r
    case None => None
    case Some(p) => Some(p + k)
  }

  lemma {:induction false} CountCloseIsFirst(code: string, depth: int, p: nat)
    ensures CountClose(code, depth) == Some(p) <==> ClosesFirst(code, depth, p)
  {
    if |code| > 0 {
      assert code == [code[0]] + code[1..];
      ClosesFirstCons(code[0], code[1..], depth, p);
      if p > 0 {
        CountCloseIsFirst(code[1..], depth + Weight(code[0]), p - 1);
      }
    }
  }

  lemma {:induction false} CountCloseCons(c: char, code: string, depth: int)
    ensures CountClose([c] + code, depth) ==
            if c == ')' && depth == 1 then Some(0) else Moved(CountClose(code, depth + Weight(c)), 1)
  {
    assert ([c] + code)[1..] == code;
  }

  lemma {:induction false} CountCloseSpaces(n: nat, code: string, depth: int)
    ensures CountClose(Spaces(n) + code, depth) == Moved(CountClose(code, depth), n)
  {
    if n == 0 {
      assert Spaces(0) + code == code;
    } else {
      CountCloseSpaces(n - 1, code, depth);
      CountCloseCons(' ', Spaces(n - 1) + code, depth);
      assert Spaces(n) + code == [' '] + (Spaces(n - 1) + code);
    }
  }

  /** One character of code moves the scan by one and counts it. */
  lemma {:induction false} PlainStep(c: char, rest: string, depth: int)
    requires PieceOk(Plain(c), rest)
    ensures Close([c] + rest, State(0, Code, depth)) ==
            if c == ')' && depth == 1 then Some(0) else Moved(Close(rest, State(0, Code, depth + Weight(c))), 1)
  {
    var text := [c] + rest;
    if |rest| > 0 {
      assert text[1] == rest[0];
    }
    assert Next(text, State(0, Code, depth)) == State(1, Code, depth + Weight(c));
    CloseShifts([c], rest, State(0, Code, depth + Weight(c)));
  }

  /** A literal or comment only moves it. */
  lemma {:induction false} SkipStep(piece: Piece, rest: string, depth: int)
    requires !piece.Plain? && PieceOk(piece, rest)
    ensures Close(PieceText(piece) + rest, State(0, Code, depth)) ==
            Moved(Close(rest, State(0, Code, depth)), |PieceText(piece)|)
  {
    PieceSteppedOver(piece, rest);
    assert OverAt(PieceText(piece), rest, depth);
    HopOver(PieceText(piece), rest, depth);
  }

  /** Scanning any reading of a text is counting the parentheses of its code. */
  lemma {:induction false} ScanIsCounting(pieces: seq<Piece>, tail: string, depth: int)
    requires Reading(pieces, tail)
    ensures Close(Text(pieces) + tail, State(0, Code, depth)) == CountClose(Blank(pieces), depth)
    decreases |pieces|
  {
    if |pieces| == 0 {
      assert Text(pieces) + tail == tail;
      TailNeverCloses(tail, depth);
    } else {
      var piece, rest, code := pieces[0], Text(pieces[1..]) + tail, Blank(pieces[1..]);
      PiecesOkTail(pieces, tail);
      assert Text(pieces) + tail == PieceText(piece) + rest;
      if piece.Plain? {
        ScanIsCounting(pieces[1..], tail, depth + Weight(piece.c));
        PlainStep(piece.c, rest, depth);
        CountCloseCons(piece.c, code, depth);
      } else {
        ScanIsCounting(pieces[1..], tail, depth);
        SkipStep(piece, rest, depth);
        CountCloseSpaces(|PieceText(piece)|, code, depth);
      }
    }
  }

  lemma {:induction false} BalanceStaysPositive(text: string, k: nat, n: nat)
    requires ClosesFirst(text, 0, k) && text[0] == '(' && 0 < n <= k
    ensures OpenAt(text, n)
    decreases n
  {
    if n == 1 {
      assert Balance(text, 1) == Balance(text, 0) + Weight(text[0]);
    } else {
      BalanceStaysPositive(text, k, n - 1);
      assert StaysOpen(text, 0, n - 1);
    }
  }

  lemma ClosesFirstMeansBalances(text: string, k: nat)
    requires |text| > 0 && text[0] == '('
    ensures ClosesFirst(text, 0, k) <==> BalancesFirst(text, k)
  {
    if ClosesFirst(text, 0, k) {
      forall n | 0 < n <= k
        ensures OpenAt(text, n)
      {
        BalanceStaysPositive(text, k, n);
      }
    }
    if BalancesFirst(text, k) {
      assert Balance(text, 1) == Balance(text, 0) + Weight(text[0]);
      assert OpenAt(text, k);
      assert Balance(text, k + 1) == Balance(text, k) + Weight(text[k]);
      forall q | 0 <= q < k
        ensures StaysOpen(text, 0, q)
      {
        assert OpenAt(text, q + 1);
      }
    }
  }

  lemma FindShifts(before: string, text: string, p: nat)
    ensures Find(before + text, |before|) == Some(p) <==> p >= |before| && Find(text, 0) == Some(p - |before|)
  {
    CloseShifts(before, text, State(0, Code, 0));
  }

  lemma {:induction false} FindFromStart(text: string, pieces: seq<Piece>, tail: string, p: nat)
    requires text == Text(pieces) + tail && Reading(pieces, tail) && |pieces| > 0 && pieces[0] == Plain('(')
    ensures Find(text, 0) == Some(p) <==> BalancesFirst(Blank(pieces), p)
  {
    ScanIsCounting(pieces, tail, 0);
    CountCloseIsFirst(Blank(pieces), 0, p);
    ClosesFirstMeansBalances(Blank(pieces), p);
  }

  /**
   From an opening parenthesis, the answer is the least position where the parentheses of the code balance: those
   in strings, characters and comments do not count. This holds of every reading of the text from there on.
   */
  lemma {:induction false} FindIsLeastBalance(source: string, openParen: nat, pieces: seq<Piece>, tail: string, p: nat)
    requires ReadsAs(source, openParen, pieces, tail)
    ensures Find(source, openParen) == Some(p) <==> p >= openParen && BalancesFirst(Blank(pieces), p - openParen)
  {
    assert source == source[..openParen] + source[openParen..];
    FindShifts(source[..openParen], source[openParen..], p);
    if p >= openParen {
      FindFromStart(source[openParen..], pieces, tail, p - openParen);
    }
  }

  // ------------------------------------------------------------------ every text has a reading

  lemma {:induction false} BackslashesPrefix(text: string, k: nat, j: nat)
    requires j <= k <= |text|
    ensures Backslashes(text[..k], j) == Backslashes(text, j)
  {
    if j > 0 {
      BackslashesPrefix(text, k, j - 1);
    }
  }

  /** The first quote that ends a literal, or the end of the text. */
  lemma {:induction false} FirstQuote(text: string, quote: char, k: nat) returns (e: nat)
    requires k <= |text| && forall j :: 0 <= j < k && text[j] == quote ==> Escaped(text, j)
    ensures e <= |text| && forall j :: 0 <= j < e && text[j] == quote ==> Escaped(text, j)
    ensures e < |text| ==> text[e] == quote && !Escaped(text, e)
    decreases |text| - k
  {
    e := k;
    if k < |text| && !(text[k] == quote && !Escaped(text, k)) {
      e := FirstQuote(text, quote, k + 1);
    }
  }

  lemma ReadQuoted(text: string) returns (piece: Piece, rest: string)
    requires |text| > 0 && IsQuote(text[0]) && !OpensQuote(text)
    ensures PieceOk(piece, rest) && !piece.Plain? && text == PieceText(piece) + rest
  {
    var body := text[1..];
    var e := FirstQuote(body, text[0], 0);
    forall j: nat | j <= e
      ensures Escaped(body[..e], j) == Escaped(body, j)
    {
      BackslashesPrefix(body, e, j);
    }
    piece, rest := Quoted(text[0], body[..e]), body[e + 1..];
    assert body == body[..e] + [body[e]] + body[e + 1..];
    assert text == [text[0]] + body;
  }

  lemma ReadLine(text: string) returns (piece: Piece, rest: string)
    requires |text| > 1 && text[..2] == "//" && !OpensLine(text)
    ensures PieceOk(piece, rest) && !piece.Plain? && text == PieceText(piece) + rest
  {
    var body := text[2..];
    var e := FirstNewline(body, 0);
    assert text == "//" + body;
    piece, rest := Line(body[..e]), body[e + 1..];
    assert body == body[..e] + [body[e]] + body[e + 1..];
  }

  lemma {:induction false} FirstNewline(text: string, k: nat) returns (e: nat)
    requires k <= |text| && '\n' in text && '\n' !in text[..k]
    ensures e < |text| && text[e] == '\n' && '\n' !in text[..e]
    decreases |text| - k
  {
    assert text[..|text|] == text;
    e := k;
    if text[k] != '\n' {
      assert text[..k + 1] == text[..k] + [text[k]];
      e := FirstNewline(text, k + 1);
    }
  }

  lemma ReadBlock(text: string) returns (piece: Piece, rest: string)
    requires |text| > 1 && text[..2] == "/*" && !OpensBlock(text)
    ensures PieceOk(piece, rest) && !piece.Plain? && text == PieceText(piece) + rest
  {
    var b, more: string :| CommentOk(b) && text[2..] == CommentText(b) + "*/" + more;
    piece, rest := Block(b), more;
    assert text == "/*" + text[2..];
  }

  /** The first piece of a text that does not open a literal or comment it never ends. */
  lemma ReadPiece(text: string) returns (piece: Piece, rest: string)
    requires !TailOk(text)
    ensures PieceOk(piece, rest) && text == PieceText(piece) + rest && |rest| < |text|
  {
    if IsQuote(text[0]) {
      piece, rest := ReadQuoted(text);
    } else if |text| > 1 && text[..2] == "//" {
      piece, rest := ReadLine(text);
    } else if |text| > 1 && text[..2] == "/*" {
      piece, rest := ReadBlock(text);
    } else {
      piece, rest := Plain(text[0]), text[1..];
      if |rest| > 0 {
        assert text[..2] == [text[0], rest[0]];
      }
    }
  }

  /** Every text has a reading, so the answer is known for every text. */
  lemma {:induction false} EveryTextHasReading(text: string) returns (pieces: seq<Piece>, tail: string)
    ensures Reading(pieces, tail) && text == Text(pieces) + tail
    decreases |text|
  {
    if TailOk(text) {
      pieces, tail := [], text;
      assert text == "" + text;
    } else {
      var piece, rest := ReadPiece(text);
      pieces, tail := EveryTextHasReading(rest);
      ReadingCons(piece, rest, pieces, tail);
      pieces := [piece] + pieces;
    }
  }

  lemma {:induction false} ReadingCons(piece: Piece, rest: string, pieces: seq<Piece>, tail: string)
    requires PieceOk(piece, rest) && Reading(pieces, tail) && rest == Text(pieces) + tail
    ensures Reading([piece] + pieces, tail) && PieceText(piece) + rest == Text([piece] + pieces) + tail
  {
    PiecesOkCons(piece, pieces, tail);
    TextCons(piece, pieces);
    ConcatAssociates(PieceText(piece), Text(pieces), tail);
  }

  /** The scanner's answer on every text and from every opening parenthesis. */
  lemma FindOnEveryText(source: string, openParen: nat) returns (pieces: seq<Piece>, tail: string)
    requires IsAt(source, openParen, '(')
    ensures ReadsAs(source, openParen, pieces, tail) && ScansAs(source, openParen, pieces)
  {
    pieces, tail := EveryTextHasReading(source[openParen..]);
    StartsPlain(pieces, tail);
    ReadingScans(source, openParen, pieces, tail);
  }

  /** The answer is the least balance of `code`, counted from `base`. */
  ghost predicate IsLeastBalance(answer: Option<nat>, base: nat, code: string) {
    forall p: nat :: answer == Some(p) <==> BalancesFrom(code, base, p)
  }

  predicate BalancesFrom(code: string, base: nat, p: nat) {
    p >= base && BalancesFirst(code, p - base)
  }

  /** The answer is the one of a text that reads as these pieces. */
  ghost predicate ScansAs(source: string, openParen: nat, pieces: seq<Piece>) {
    IsLeastBalance(Find(source, openParen), openParen, Blank(pieces))
  }

  /** From its opening parenthesis on, the text reads as these pieces and this tail. */
  ghost predicate ReadsAs(source: string, openParen: nat, pieces: seq<Piece>, tail: string) {
    && openParen <= |source| && source[openParen..] == Text(pieces) + tail
    && Reading(pieces, tail) && |pieces| > 0 && pieces[0] == Plain('(')
  }

  lemma ReadingScans(source: string, openParen: nat, pieces: seq<Piece>, tail: string)
    requires ReadsAs(source, openParen, pieces, tail)
    ensures ScansAs(source, openParen, pieces)
  {
    forall p: nat
      ensures Find(source, openParen) == Some(p) <==> BalancesFrom(Blank(pieces), openParen, p)
    {
      FindIsLeastBalance(source, openParen, pieces, tail, p);
    }
  }

  lemma {:induction false} StartsPlain(pieces: seq<Piece>, tail: string)
    requires Reading(pieces, tail) && StartsWith(Text(pieces) + tail, '(')
    ensures |pieces| > 0 && pieces[0] == Plain('(')
  {
    WholeShape(pieces, tail);
    if |pieces| == 0 {
      TailHead(tail);
    } else {
      PiecesOkTail(pieces, tail);
      PlainHead(pieces[0], Text(pieces[1..]) + tail);
    }
  }

  lemma TailHead(tail: string)
    requires TailOk(tail)
    ensures !StartsWith(tail, '(')
  {
    if |tail| > 1 {
      assert tail[..2][0] == tail[0];
    }
  }

  lemma PlainHead(piece: Piece, rest: string)
    requires PieceOk(piece, rest) && StartsWith(PieceText(piece) + rest, '(')
    ensures piece == Plain('(')
  {
    assert (PieceText(piece) + rest)[0] == PieceText(piece)[0];
  }

  // ------------------------------------------------------------------ and only one

  lemma Cancel<T>(a: seq<T>, x: seq<T>, y: seq<T>)
    requires a + x == a + y
    ensures x == y
  {
    assert (a + x)[|a|..] == x && (a + y)[|a|..] == y;
  }

  /** A body, the mark that ends it, and what follows. */
  function Ended(b: Comment, r: string): string {
    CommentText(b) + "*/" + r
  }

  function Second(b: Comment): char {
    match b
    case Empty => '/'
    case Letter(_, rest) => First(rest)
    case Nested(_, _) => '*'
  }

  lemma EndedShape(b: Comment, r: string)
    ensures Ended(b, r) == match b
                           case Empty => "*/" + r
                           case Letter(c, rest) => [c] + Ended(rest, r)
                           case Nested(inner, rest) => "/*" + Ended(inner, Ended(rest, r))
  {
  }

  lemma EndedHead(b: Comment, r: string)
    ensures |Ended(b, r)| > 1 && Ended(b, r)[0] == First(b) && Ended(b, r)[1] == Second(b)
  {
    EndedShape(b, r);
    if b.Letter? {
      CommentFirst(b.rest, r);
    }
  }

  /** The first two characters tell letters, comments and the end apart. */
  lemma {:induction false} SameShape(b: Comment, d: Comment)
    requires CommentOk(b) && CommentOk(d) && First(b) == First(d) && Second(b) == Second(d)
    ensures b.Empty? == d.Empty? && b.Letter? == d.Letter? && b.Nested? == d.Nested?
  {
  }

  /** A comment ends in one place, and its nesting is determined. */
  lemma {:induction false} CommentUnique(b: Comment, d: Comment, r: string, s: string)
    requires CommentOk(b) && CommentOk(d) && Ended(b, r) == Ended(d, s)
    ensures b == d && r == s
  {
    EndedHead(b, r);
    EndedHead(d, s);
    SameShape(b, d);
    EndedShape(b, r);
    EndedShape(d, s);
    match b
    case Empty => Cancel("*/", r, s);
    case Letter(c, rest) =>
      Cancel([c], Ended(rest, r), Ended(d.rest, s));
      CommentUnique(rest, d.rest, r, s);
    case Nested(inner, rest) =>
      Cancel("/*", Ended(inner, Ended(rest, r)), Ended(d.inner, Ended(d.rest, s)));
      CommentUnique(inner, d.inner, Ended(rest, r), Ended(d.rest, s));
      CommentUnique(rest, d.rest, r, s);
  }

  lemma QuotedUnique(quote: char, b: string, d: string, r: string, s: string)
    requires QuotedBody(b, quote) && QuotedBody(d, quote) && b + [quote] + r == d + [quote] + s
    ensures b == d && r == s
  {
    var text := b + [quote] + r;
    assert text[..|b|] == b && text[..|d|] == d;
    if |b| < |d| {
      QuoteEnds(quote, b, d, text);
    } else if |d| < |b| {
      QuoteEnds(quote, d, b, text);
    }
    assert text[|b| + 1..] == r && text[|d| + 1..] == s;
  }

  lemma QuoteEnds(quote: char, b: string, d: string, text: string)
    requires QuotedBody(b, quote) && |b| < |d| <= |text| && text[..|b|] == b && text[..|d|] == d && text[|b|] == quote
    ensures !AllEscaped(d, quote)
  {
    BackslashesPrefix(text, |b|, |b|);
    BackslashesPrefix(text, |d|, |b|);
    assert d[|b|] == quote;
  }

  lemma LineUnique(b: string, d: string, r: string, s: string)
    requires '\n' !in b && '\n' !in d && b + "\n" + r == d + "\n" + s
    ensures b == d && r == s
  {
    var text := b + "\n" + r;
    assert text[|b|] == '\n' && text[|d|] == '\n';
    assert forall j :: 0 <= j < |b| ==> text[j] == b[j];
    assert forall j :: 0 <= j < |d| ==> text[j] == d[j];
    assert text[..|b|] == b && text[..|d|] == d;
    assert text[|b| + 1..] == r && text[|d| + 1..] == s;
  }

  datatype Kind = CodeKind | QuoteKind | LineKind | BlockKind

  /** What a text begins with, from its first two characters. */
  function KindOf(text: string): Kind
    requires |text| > 0
  {
    if IsQuote(text[0]) then QuoteKind
    else if |text| > 1 && text[0] == '/' && text[1] == '/' then LineKind
    else if |text| > 1 && text[0] == '/' && text[1] == '*' then BlockKind
    else CodeKind
  }

  lemma PieceKind(a: Piece, r: string)
    requires PieceOk(a, r)
    ensures |PieceText(a) + r| > 0
    ensures KindOf(PieceText(a) + r) == match a
                                        case Plain(_) => CodeKind
                                        case Quoted(_, _) => QuoteKind
                                        case Line(_) => LineKind
                                        case Block(_) => BlockKind
  {
  }

  lemma PieceShape(a: Piece, r: string)
    ensures PieceText(a) + r == match a
                                case Plain(c) => [c] + r
                                case Quoted(quote, body) => [quote] + (body + [quote] + r)
                                case Line(body) => "//" + (body + "\n" + r)
                                case Block(comment) => "/*" + Ended(comment, r)
  {
  }

  /** Two first pieces of one text are the same. */
  lemma PieceUnique(a: Piece, b: Piece, r: string, s: string)
    requires PieceOk(a, r) && PieceOk(b, s) && PieceText(a) + r == PieceText(b) + s
    ensures a == b && r == s
  {
    PieceKind(a, r);
    PieceKind(b, s);
    PieceShape(a, r);
    PieceShape(b, s);
    assert (PieceText(a) + r)[0] == PieceText(a)[0] && (PieceText(b) + s)[0] == PieceText(b)[0];
    match a
    case Plain(c) => Cancel([c], r, s);
    case Quoted(quote, body) =>
      Cancel([quote], body + [quote] + r, b.body + [quote] + s);
      QuotedUnique(quote, body, b.body, r, s);
    case Line(body) =>
      Cancel("//", body + "\n" + r, b.body + "\n" + s);
      LineUnique(body, b.body, r, s);
    case Block(comment) =>
      Cancel("/*", Ended(comment, r), Ended(b.comment, s));
      CommentUnique(comment, b.comment, r, s);
  }

  lemma TailKind(tail: string)
    requires TailOk(tail) && tail != ""
    ensures KindOf(tail) != CodeKind
    ensures KindOf(tail) == QuoteKind ==> OpensQuote(tail)
    ensures KindOf(tail) == LineKind ==> OpensLine(tail)
    ensures KindOf(tail) == BlockKind ==> OpensBlock(tail)
  {
    if |tail| > 1 {
      assert tail[..2] == [tail[0], tail[1]];
    }
  }

  lemma QuotedIsEnded(quote: char, body: string, r: string)
    requires QuotedBody(body, quote)
    ensures !AllEscaped(body + [quote] + r, quote)
  {
    var text := body + [quote] + r;
    BackslashesPrefix(text, |body|, |body|);
    assert text[..|body|] == body && text[|body|] == quote;
  }

  /** What is never ended is not a piece. */
  lemma TailIsNoPiece(tail: string, a: Piece, r: string)
    requires TailOk(tail) && PieceOk(a, r)
    ensures tail != PieceText(a) + r
  {
    var text := PieceText(a) + r;
    PieceKind(a, r);
    PieceShape(a, r);
    if tail != "" {
      TailKind(tail);
      match a
      case Plain(_) =>
      case Quoted(quote, body) =>
        assert text[1..] == body + [quote] + r && text[0] == quote;
        QuotedIsEnded(quote, body, r);
      case Line(body) =>
        assert text[2 + |body|] == '\n';
      case Block(comment) =>
        assert text[2..] == Ended(comment, r);
    }
  }

  lemma {:induction false} WholeShape(pieces: seq<Piece>, tail: string)
    ensures Text(pieces) + tail == if |pieces| == 0 then tail else PieceText(pieces[0]) + (Text(pieces[1..]) + tail)
  {
  }

  /** Every text has exactly one reading: what counts as code does not depend on how it is read. */
  lemma {:induction false} ReadingUnique(a: seq<Piece>, s: string, b: seq<Piece>, t: string)
    requires Reading(a, s) && Reading(b, t) && Text(a) + s == Text(b) + t
    ensures a == b && s == t
    decreases |a|
  {
    WholeShape(a, s);
    WholeShape(b, t);
    if |a| > 0 {
      PiecesOkTail(a, s);
    }
    if |b| > 0 {
      PiecesOkTail(b, t);
    }
    if |a| > 0 && |b| > 0 {
      PieceUnique(a[0], b[0], Text(a[1..]) + s, Text(b[1..]) + t);
      ReadingUnique(a[1..], s, b[1..], t);
      assert a == [a[0]] + a[1..] && b == [b[0]] + b[1..];
    } else if |a| > 0 {
      TailIsNoPiece(t, a[0], Text(a[1..]) + s);
    } else if |b| > 0 {
      TailIsNoPiece(s, b[0], Text(b[1..]) + t);
    }
  }

  // ------------------------------------------------------------------ what the text really holds

  /** What the scanner takes for code in a whole text. */
  function Seen(pieces: seq<Piece>, tail: string): string {
    Blank(pieces) + Spaces(|tail|)
  }

  /**
   Let `code` be what the text really holds outside its literals and comments, whatever the scanner takes it for:
   lifetimes, apostrophes in strings and raw strings are read wrongly. Where the call really closes at `k`, the
   scanner finds that close exactly when its count misses nothing there and never comes to zero before.
   */
  lemma TrueCloseFound(source: string, openParen: nat, pieces: seq<Piece>, tail: string, code: string, k: nat)
    requires ReadsAs(source, openParen, pieces, tail)
    requires |code| == |source| - openParen && BalancesFirst(code, k)
    ensures |Seen(pieces, tail)| == |code|
    ensures Find(source, openParen) == Some(openParen + k) <==> MissesNothing(code, Seen(pieces, tail), k)
  {
    BlankLength(pieces);
    ReadingScans(source, openParen, pieces, tail);
    SeenDecides(Find(source, openParen), openParen, pieces, tail, code, k);
  }

  lemma {:induction false} SeenDecides(answer: Option<nat>, base: nat, pieces: seq<Piece>, tail: string, code: string,
                                       k: nat)
    requires IsLeastBalance(answer, base, Blank(pieces))
    requires |pieces| > 0 && |code| == |Seen(pieces, tail)| && BalancesFirst(code, k)
    ensures answer == Some(base + k) <==> MissesNothing(code, Seen(pieces, tail), k)
  {
    assert |Blank(pieces)| > 0;
    BalancesFirstSpaces(Blank(pieces), |tail|, k);
    SameFirstBalance(code, Seen(pieces, tail), k);
    assert answer == Some(base + k) <==> BalancesFrom(Blank(pieces), base, base + k);
  }

  /**
   A call that is read rightly up to its close is closed there, whatever follows: a lifetime, an unended literal or
   anything else behind the close does no harm.
   */
  lemma {:induction false} CloseIgnoresRest(source: string, openParen: nat, pieces: seq<Piece>, rest: string, k: nat)
    requires openParen <= |source| && source[openParen..] == Text(pieces) + rest
    requires PiecesOk(pieces, rest) && |pieces| > 0 && pieces[0] == Plain('(') && k < |Blank(pieces)|
    ensures Find(source, openParen) == Some(openParen + k) <==> BalancesFirst(Blank(pieces), k)
  {
    var all, tail := ReadOn(pieces, rest);
    ReadingScans(source, openParen, all, tail);
    PrefixFound(Find(source, openParen), openParen, Blank(pieces), Blank(all), k);
  }

  /** A reading of the whole begins with the pieces read rightly. */
  lemma ReadOn(pieces: seq<Piece>, rest: string) returns (all: seq<Piece>, tail: string)
    requires PiecesOk(pieces, rest) && |pieces| > 0
    ensures Reading(all, tail) && Text(all) + tail == Text(pieces) + rest
    ensures |all| > 0 && all[0] == pieces[0] && Blank(pieces) <= Blank(all)
  {
    var more: seq<Piece>;
    more, tail := EveryTextHasReading(rest);
    all := pieces + more;
    PiecesOkConcat(pieces, more, tail);
    TextConcat(pieces, more);
    ConcatAssociates(Text(pieces), Text(more), tail);
    BlankConcat(pieces, more);
  }

  lemma PrefixFound(answer: Option<nat>, base: nat, first: string, whole: string, k: nat)
    requires IsLeastBalance(answer, base, whole) && first <= whole && k < |first|
    ensures answer == Some(base + k) <==> BalancesFirst(first, k)
  {
    assert whole == first + whole[|first|..];
    BalancesFirstPrefix(first, whole[|first|..], k);
    assert answer == Some(base + k) <==> BalancesFrom(whole, base, base + k);
  }

  // ------------------------------------------------------------------ ticks that open no literal

  /**
   The tick of a lifetime that no later unescaped tick ends is a tail, like every opening that is never ended. If the
   call closes at `k` once `code` is what the tail really holds, that close is found exactly when it stands in front
   of the tail, and otherwise nothing is.
   */
  lemma {:induction false} TailHidesClose(source: string, openParen: nat, pieces: seq<Piece>, tail: string,
                                          code: string, k: nat)
    requires ReadsAs(source, openParen, pieces, tail) && BalancesFirst(Blank(pieces) + code, k)
    ensures Find(source, openParen) == if k < |Text(pieces)| then Some(openParen + k) else None
  {
    ReadingScans(source, openParen, pieces, tail);
    HiddenAfter(Find(source, openParen), openParen, pieces, code, k);
  }

  lemma {:induction false} HiddenAfter(answer: Option<nat>, base: nat, pieces: seq<Piece>, code: string, k: nat)
    requires IsLeastBalance(answer, base, Blank(pieces)) && BalancesFirst(Blank(pieces) + code, k)
    ensures answer == if k < |Text(pieces)| then Some(base + k) else None
  {
    BlankLength(pieces);
    PrefixDecides(answer, base, Blank(pieces), code, k);
  }

  /** A search of the first part alone finds the balance of the whole if it stands there, and otherwise nothing. */
  lemma PrefixDecides(answer: Option<nat>, base: nat, first: string, code: string, k: nat)
    requires IsLeastBalance(answer, base, first)
    requires BalancesFirst(first + code, k)
    ensures answer == if k < |first| then Some(base + k) else None
  {
    if k < |first| {
      BalancesFirstPrefix(first, code, k);
      assert BalancesFrom(first, base, base + k);
    } else if answer.Some? {
      assert BalancesFrom(first, base, answer.value);
      BalancesFirstPrefix(first, code, answer.value - base);
      BalancesFirstUnique(first + code, k, answer.value - base);
      assert false;
    }
  }

  /**
   Two ticks that open no literals, with no unescaped tick between them, are read as one literal. With `code` as what
   really stands from the one to the other, and everything else as it is read, the call's close is found exactly when
   it stands in front of the first tick, or behind the second while the parentheses between them balance.
   */
  lemma {:induction false} TickPairHidesClose(source: string, openParen: nat, pieces: seq<Piece>, tail: string,
                           first: seq<Piece>, body: string, second: seq<Piece>, code: string, k: nat)
    requires ReadsAs(source, openParen, pieces, tail)
    requires |first| > 0 && pieces == first + [Quoted('\'', body)] + second && |code| == |body| + 2
    requires BalancesFirst(Blank(first) + code + Blank(second), k)
    ensures Find(source, openParen) == Some(openParen + k) <==>
            k < |Blank(first)| || (k >= |Blank(first)| + |code| && Balance(code, |code|) == 0)
  {
    ReadingScans(source, openParen, pieces, tail);
    PairDecides(Find(source, openParen), openParen, first, body, second, code, k);
  }

  lemma {:induction false} PairDecides(answer: Option<nat>, base: nat, first: seq<Piece>, body: string,
                                       second: seq<Piece>, code: string, k: nat)
    requires IsLeastBalance(answer, base, Blank(first + [Quoted('\'', body)] + second))
    requires |first| > 0 && |code| == |body| + 2 && BalancesFirst(Blank(first) + code + Blank(second), k)
    ensures answer == Some(base + k) <==>
            k < |Blank(first)| || (k >= |Blank(first)| + |code| && Balance(code, |code|) == 0)
  {
    PairBlanked(first, body, second, code, k);
    assert answer == Some(base + k) <==> BalancesFrom(Blank(first + [Quoted('\'', body)] + second), base, base + k);
  }

  lemma {:induction false} PairBlanked(first: seq<Piece>, body: string, second: seq<Piece>, code: string, k: nat)
    requires |first| > 0 && |code| == |body| + 2 && BalancesFirst(Blank(first) + code + Blank(second), k)
    ensures BalancesFirst(Blank(first + [Quoted('\'', body)] + second), k) <==>
            k < |Blank(first)| || (k >= |Blank(first)| + |code| && Balance(code, |code|) == 0)
  {
    PairBlank(first, body, second);
    assert |Blank(first)| > 0;
    BlankedStretch(Blank(first), code, Blank(second), k);
  }

  lemma {:induction false} PairBlank(first: seq<Piece>, body: string, second: seq<Piece>)
    ensures Blank(first + [Quoted('\'', body)] + second) == Blank(first) + Spaces(|body| + 2) + Blank(second)
  {
    var pair := [Quoted('\'', body)];
    BlankConcat(first + pair, second);
    BlankConcat(first, pair);
    BlankOne(Quoted('\'', body));
  }

  /** For example "('a)": read as a lifetime, the call closes at its last character, and the scanner finds nothing. */
  lemma LifetimeExample()
    ensures BalancesFirst("('a)", 3) && Find("('a)", 0) == None
  {
    var pieces, code := [Plain('(')], "'a)";
    assert OpenAt("('a)", 1) && OpenAt("('a)", 2) && OpenAt("('a)", 3) && Balance("('a)", 4) == 0;
    assert pieces[1..] == [] && Text(pieces[1..]) == "" && Blank(pieces[1..]) == "";
    assert Text(pieces) == "(" && Blank(pieces) == "(";
    assert OpensQuote("'" + "a)") by {
      assert ("'" + "a)")[1..] == "a)";
    }
    assert Blank(pieces) + code == "('a)";
    assert "('a)"[0..] == Text(pieces) + ("'" + "a)");
    assert PieceOkAt(pieces, "'" + "a)", 0);
    TailHidesClose("('a)", 0, pieces, "'" + "a)", code, 3);
  }
}
