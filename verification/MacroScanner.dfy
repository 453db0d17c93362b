/** The log-macro scanner of scripts/audit-log-fields.py: finding the parenthesis that closes a macro call. */
module MacroScanner {
  import opened MacroText
  import opened Options

  /** What the scanner is inside of; the script keeps this in five variables. */
  datatype Mode = Code | InString(escaped: bool) | InChar(escaped: bool) | InLine | InBlock(nesting: nat)

  datatype State = State(index: nat, mode: Mode, depth: int)

  /** Whether `c` stands at `index`; false past the end. */
  predicate IsAt(source: string, index: nat, c: char) {
    index < |source| && source[index] == c
  }

  /** One turn of the loop. */
  function Next(source: string, s: State): (t: State)
    requires s.index < |source|
    ensures s.index < t.index <= s.index + 2
  {
    var c := source[s.index];
    match s.mode
    case InLine =>
      State(s.index + 1, if c == '\n' then Code else InLine, s.depth)
    case InBlock(n) =>
      if c == '/' && IsAt(source, s.index + 1, '*') then State(s.index + 2, InBlock(n + 1), s.depth)
      else if c == '*' && IsAt(source, s.index + 1, '/') then
        State(s.index + 2, if n <= 1 then Code else InBlock(n - 1), s.depth)
      else State(s.index + 1, s.mode, s.depth)
    case InString(escaped) =>
      State(s.index + 1,
            if escaped then InString(false)
            else if c == '\\' then InString(true)
            else if c == '"' then Code
            else s.mode,
            s.depth)
    case InChar(escaped) =>
      State(s.index + 1,
            if escaped then InChar(false) else if c == '\\' then InChar(true) else if c == '\'' then Code else s.mode,
            s.depth)
    case Code =>
      if c == '/' && IsAt(source, s.index + 1, '/') then State(s.index + 2, InLine, s.depth)
      else if c == '/' && IsAt(source, s.index + 1, '*') then State(s.index + 2, InBlock(1), s.depth)
      else if c == '"' then State(s.index + 1, InString(false), s.depth)
      else if c == '\'' then State(s.index + 1, InChar(false), s.depth)
      else State(s.index + 1, Code, if c == '(' then s.depth + 1 else if c == ')' then s.depth - 1 else s.depth)
  }

  predicate Closes(source: string, s: State) {
    s.mode == Code && s.depth == 1 && IsAt(source, s.index, ')')
  }

  /** The scan from a state on. */
  function Close(source: string, s: State): Option<nat>
    decreases |source| - s.index
  {
    if s.index >= |source| then None
    else if Closes(source, s) then Some(s.index)
    else Close(source, Next(source, s))
  }

  function Find(source: string, openParen: nat): Option<nat> {
    Close(source, State(openParen, Code, 0))
  }

  // ------------------------------------------------------------------ the script's loop

  function ModeOf(inString: bool, inChar: bool, lineComment: bool, nesting: nat, escaped: bool): Mode {
    if lineComment then InLine
    else if nesting > 0 then InBlock(nesting)
    else if inString then InString(escaped)
    else if inChar then InChar(escaped)
    else Code
  }

  method FindMacroClose(source: string, openParen: nat) returns (r: Option<nat>)
    ensures r == Find(source, openParen)
  {
    var depth, index := 0, openParen;
    var inString, inChar, lineComment, escaped := false, false, false, false;
    var nesting: nat := 0;
    while index < |source|
      invariant 0 <= index
      invariant lineComment ==> nesting == 0
      invariant lineComment || nesting > 0 ==> !inString && !inChar && !escaped
      invariant !(inString && inChar) && (escaped ==> inString || inChar)
      invariant Find(source, openParen) ==
                Close(source, State(index, ModeOf(inString, inChar, lineComment, nesting, escaped), depth))
    {
      var c := source[index];
      var next := if index + 1 < |source| then Some(source[index + 1]) else None;
      if lineComment {
        if c == '\n' {
          lineComment := false;
        }
        index := index + 1;
        continue;
      }
      if nesting > 0 {
        if c == '/' && next == Some('*') {
          nesting := nesting + 1;
          index := index + 2;
          continue;
        }
        if c == '*' && next == Some('/') {
          nesting := nesting - 1;
          index := index + 2;
          continue;
        }
        index := index + 1;
        continue;
      }
      if inString {
        if escaped {
          escaped := false;
        } else if c == '\\' {
          escaped := true;
        } else if c == '"' {
          inString := false;
        }
        index := index + 1;
        continue;
      }
      if inChar {
        if escaped {
          escaped := false;
        } else if c == '\\' {
          escaped := true;
        } else if c == '\'' {
          inChar := false;
        }
        index := index + 1;
        continue;
      }
      if c == '/' && next == Some('/') {
        lineComment := true;
        index := index + 2;
        continue;
      }
      if c == '/' && next == Some('*') {
        nesting := 1;
        index := index + 2;
        continue;
      }
      if c == '"' {
        inString := true;
        index := index + 1;
        continue;
      }
      if c == '\'' {
        inChar := true;
        index := index + 1;
        continue;
      }
      if c == '(' {
        depth := depth + 1;
      } else if c == ')' {
        depth := depth - 1;
        if depth == 0 {
          return Some(index);
        }
      }
      index := index + 1;
    }
    return None;
  }

  // ------------------------------------------------------------------ passing from state to state

  /** The scan from `s` comes to `t` without closing on the way. */
  predicate Passes(source: string, s: State, t: State)
    decreases |source| - s.index
  {
    s == t || (s.index < |source| && s.index < t.index && !Closes(source, s) && Passes(source, Next(source, s), t))
  }

  lemma {:induction false} PassesKeepsClose(source: string, s: State, t: State)
    requires Passes(source, s, t)
    ensures Close(source, s) == Close(source, t)
    decreases |source| - s.index
  {
    if s != t {
      PassesKeepsClose(source, Next(source, s), t);
    }
  }

  lemma {:induction false} PassesOn(source: string, s: State, t: State, u: State)
    requires Passes(source, s, t) && Passes(source, t, u)
    ensures Passes(source, s, u)
    decreases |source| - s.index
  {
    if s != t {
      PassesOn(source, Next(source, s), t, u);
      PassesForward(source, t, u);
    }
  }

  lemma {:induction false} PassesForward(source: string, s: State, t: State)
    requires Passes(source, s, t)
    ensures s == t || s.index < t.index
  {
  }

  function Shifted(s: State, k: nat): State {
    State(s.index + k, s.mode, s.depth)
  }

  function ShiftedAnswer(r: Option<nat>, k: int): Option<int> {
    match r
    case None => None
    case Some(p) => Some(p + k)
  }

  lemma NextShifts(before: string, source: string, s: State)
    requires s.index < |source|
    ensures Next(before + source, Shifted(s, |before|)) == Shifted(Next(source, s), |before|)
    ensures Closes(before + source, Shifted(s, |before|)) == Closes(source, s)
  {
    var whole, i := before + source, s.index + |before|;
    assert whole[i] == source[s.index];
    assert i + 1 < |whole| ==> whole[i + 1] == source[s.index + 1];
  }

  /** Text before the scan does not matter. */
  lemma {:induction false} CloseShifts(before: string, source: string, s: State)
    ensures ShiftedAnswer(Close(source, s), |before|) == Close(before + source, Shifted(s, |before|))
    decreases |source| - s.index
  {
    if s.index < |source| {
      NextShifts(before, source, s);
      if !Closes(source, s) {
        CloseShifts(before, source, Next(source, s));
      }
    }
  }

  lemma {:induction false} PassesShifts(before: string, source: string, s: State, t: State)
    requires Passes(source, s, t)
    ensures Passes(before + source, Shifted(s, |before|), Shifted(t, |before|))
    decreases |source| - s.index
  {
    if s != t {
      NextShifts(before, source, s);
      PassesShifts(before, source, Next(source, s), t);
    }
  }

  lemma NextAgrees(text: string, other: string, s: State)
    requires s.index < |text| && s.index < |other| && text[s.index] == other[s.index]
    requires IsAt(text, s.index + 1, '/') == IsAt(other, s.index + 1, '/')
    requires IsAt(text, s.index + 1, '*') == IsAt(other, s.index + 1, '*')
    ensures Next(text, s) == Next(other, s)
    ensures Closes(text, s) == Closes(other, s)
  {
  }

  /** How a prefix is scanned depends on what follows only through its first character. */
  lemma {:induction false} PassesPrefix(text: string, rest: string, other: string, s: State, t: State)
    requires |rest| > 0 && |other| > 0 && rest[0] == other[0]
    requires t.index <= |text| && Passes(text + rest, s, t)
    ensures Passes(text + other, s, t)
    decreases |text| - s.index
  {
    if s != t {
      var a, b := text + rest, text + other;
      assert a[s.index] == b[s.index];
      assert a[s.index + 1] == b[s.index + 1];
      NextAgrees(a, b, s);
      PassesPrefix(text, rest, other, Next(a, s), t);
    }
  }

  /** The answer does not depend on any text after it. */
  lemma {:induction false} AnswerIgnoresRest(source: string, s: State, p: nat, rest: string)
    requires Close(source, s) == Some(p)
    ensures s.index <= p < |source|
    ensures Close(source[..p + 1] + rest, s) == Some(p)
    decreases |source| - s.index
  {
    if !Closes(source, s) {
      AnswerIgnoresRest(source, Next(source, s), p, rest);
      var b := source[..p + 1] + rest;
      assert b[s.index] == source[s.index] && b[s.index + 1] == source[s.index + 1];
      NextAgrees(source, b, s);
    } else {
      assert (source[..p + 1] + rest)[p] == ')';
    }
  }

  // ------------------------------------------------------------------ pieces the scan steps over

  /** In front of anything, at any depth, the scan goes over the piece and is back in code. */
  ghost predicate SteppedOver(piece: string) {
    forall rest: string, depth: int :: OverAt(piece, rest, depth)
  }

  predicate OverAt(piece: string, rest: string, depth: int) {
    Passes(piece + rest, State(0, Code, depth), State(|piece|, Code, depth))
  }

  lemma {:induction false} HopOver(piece: string, after: string, depth: int)
    requires OverAt(piece, after, depth)
    ensures ShiftedAnswer(Close(after, State(0, Code, depth)), |piece|) == Close(piece + after, State(0, Code, depth))
  {
    CloseShifts(piece, after, State(0, Code, depth));
    PassesKeepsClose(piece + after, State(0, Code, depth), State(|piece|, Code, depth));
  }

  /** A scan that comes to a piece in code goes on behind it. */
  lemma {:induction false} StepOver(before: string, piece: string, after: string, s: State, depth: int)
    requires OverAt(piece, after, depth)
    requires Passes(before + (piece + after), s, State(|before|, Code, depth))
    ensures ShiftedAnswer(Close(after, State(0, Code, depth)), |before| + |piece|) == Close(before + (piece + after), s)
  {
    PassesKeepsClose(before + (piece + after), s, State(|before|, Code, depth));
    HopOver(piece, after, depth);
    CloseShifts(before, piece + after, State(0, Code, depth));
  }

  lemma {:induction false} ReplaceAt(before: string, piece: string, other: string, after: string, s: State, depth: int)
    requires OverAt(piece, after, depth) && OverAt(other, after, depth)
    requires Passes(before + (piece + after), s, State(|before|, Code, depth))
    requires Passes(before + (other + after), s, State(|before|, Code, depth))
    ensures SameUpTo(Close(before + (other + after), s), Close(before + (piece + after), s), |other| - |piece|)
  {
    StepOver(before, piece, after, s, depth);
    StepOver(before, other, after, s, depth);
  }

  /** The first answer is the second moved by `k`. */
  predicate SameUpTo(a: Option<nat>, b: Option<nat>, k: int) {
    match b
    case None => a == None
    case Some(p) => a.Some? && a.value == p + k
  }

  /**
   Replacing one stepped-over piece by another that starts alike, where the scan meets it in code, moves the
   answer by the difference in length and changes nothing else.
   */
  lemma {:induction false} ReplacePiece(before: string, piece: string, other: string, after: string, openParen: nat,
                                        depth: int)
    requires SteppedOver(piece) && SteppedOver(other)
    requires |piece| > 0 && |other| > 0 && piece[0] == other[0]
    requires Passes(before + (piece + after), State(openParen, Code, 0), State(|before|, Code, depth))
    ensures SameUpTo(Find(before + (other + after), openParen), Find(before + (piece + after), openParen),
                     |other| - |piece|)
  {
    PassesPrefix(before, piece + after, other + after, State(openParen, Code, 0), State(|before|, Code, depth));
    assert OverAt(piece, after, depth) && OverAt(other, after, depth);
    ReplaceAt(before, piece, other, after, State(openParen, Code, 0), depth);
  }

  // ------------------------------------------------------------------ strings and characters

  function Quoting(quote: char, escaped: bool): Mode {
    if quote == '"' then InString(escaped) else InChar(escaped)
  }

  lemma {:induction false} QuotedScan(body: string, quote: char, rest: string, j: nat, depth: int)
    requires quote == '"' || quote == '\''
    requires QuotedBody(body, quote) && j <= |body|
    ensures Passes(body + rest, State(j, Quoting(quote, Escaped(body, j)), depth),
                   State(|body|, Quoting(quote, false), depth))
    decreases |body| - j
  {
    if j < |body| {
      var text := body + rest;
      assert text[j] == body[j];
      QuotedScan(body, quote, rest, j + 1, depth);
    }
  }

  /** A string or character literal is stepped over when its inner quotes are escaped. */
  lemma QuotedSteppedOver(body: string, quote: char)
    requires quote == '"' || quote == '\''
    requires QuotedBody(body, quote)
    ensures SteppedOver([quote] + body + [quote])
  {
    var piece := [quote] + body + [quote];
    forall rest: string, depth: int
      ensures OverAt(piece, rest, depth)
    {
      QuotedScan(body, quote, [quote] + rest, 0, depth);
      PassesShifts([quote], body + ([quote] + rest), State(0, Quoting(quote, false), depth),
                   State(|body|, Quoting(quote, false), depth));
      var text := piece + rest;
      assert text == [quote] + (body + ([quote] + rest));
      assert text[0] == quote && text[|body| + 1] == quote;
      var inside, last := State(1, Quoting(quote, false), depth), State(|body| + 1, Quoting(quote, false), depth);
      assert Next(text, State(0, Code, depth)) == inside;
      assert Next(text, last) == State(|piece|, Code, depth);
      PassesOn(text, inside, last, State(|piece|, Code, depth));
    }
  }

  // ------------------------------------------------------------------ comments

  lemma {:induction false} LineScan(body: string, rest: string, j: nat, depth: int)
    requires '\n' !in body && j <= |body|
    ensures Passes(body + rest, State(j, InLine, depth), State(|body|, InLine, depth))
    decreases |body| - j
  {
    if j < |body| {
      assert (body + rest)[j] == body[j];
      LineScan(body, rest, j + 1, depth);
    }
  }

  /** A line comment is stepped over up to and with its newline. */
  lemma LineSteppedOver(body: string)
    requires '\n' !in body
    ensures SteppedOver("//" + body + "\n")
  {
    var piece := "//" + body + "\n";
    forall rest: string, depth: int
      ensures OverAt(piece, rest, depth)
    {
      LineScan(body, "\n" + rest, 0, depth);
      PassesShifts("//", body + ("\n" + rest), State(0, InLine, depth), State(|body|, InLine, depth));
      var text := piece + rest;
      assert text == "//" + (body + ("\n" + rest));
      assert text[0] == '/' && text[1] == '/' && text[|body| + 2] == '\n';
      assert Next(text, State(|body| + 2, InLine, depth)) == State(|piece|, Code, depth);
      PassesOn(text, State(2, InLine, depth), State(|body| + 2, InLine, depth), State(|piece|, Code, depth));
    }
  }

  /** Inside a block comment, in front of `next`, the scan goes over the body at any nesting. */
  ghost predicate BlockBody(body: string, next: char) {
    forall rest: string, n: nat, depth: int :: n > 0 && |rest| > 0 && rest[0] == next ==> InsideAt(body, rest, n, depth)
  }

  predicate InsideAt(body: string, rest: string, n: nat, depth: int) {
    Passes(body + rest, State(0, InBlock(n), depth), State(|body|, InBlock(n), depth))
  }

  /** Neither "/*" nor "*/" begins inside the body, with `next` after it. */
  predicate Flat(body: string, next: char) {
    var text := body + [next];
    forall j :: 0 <= j < |body| ==> !(text[j] == '/' && text[j + 1] == '*') && !(text[j] == '*' && text[j + 1] == '/')
  }

  lemma {:induction false} FlatScan(body: string, rest: string, j: nat, n: nat, depth: int)
    requires |rest| > 0 && Flat(body, rest[0]) && j <= |body| && n > 0
    ensures Passes(body + rest, State(j, InBlock(n), depth), State(|body|, InBlock(n), depth))
    decreases |body| - j
  {
    if j < |body| {
      var text, short := body + rest, body + [rest[0]];
      assert text[j] == short[j] && text[j + 1] == short[j + 1];
      FlatScan(body, rest, j + 1, n, depth);
    }
  }

  lemma FlatIsBlockBody(body: string, next: char)
    requires Flat(body, next)
    ensures BlockBody(body, next)
  {
    forall rest: string, n: nat, depth: int | n > 0 && |rest| > 0 && rest[0] == next
      ensures InsideAt(body, rest, n, depth)
    {
      FlatScan(body, rest, 0, n, depth);
    }
  }

  lemma BlockBodyConcat(a: string, b: string, next: char)
    requires |b| > 0 && BlockBody(a, b[0]) && BlockBody(b, next)
    ensures BlockBody(a + b, next)
  {
    forall rest: string, n: nat, depth: int | n > 0 && |rest| > 0 && rest[0] == next
      ensures InsideAt(a + b, rest, n, depth)
    {
      assert a + b + rest == a + (b + rest);
      assert (b + rest)[0] == b[0];
      assert InsideAt(a, b + rest, n, depth) && InsideAt(b, rest, n, depth);
      PassesShifts(a, b + rest, State(0, InBlock(n), depth), State(|b|, InBlock(n), depth));
      PassesOn(a + b + rest, State(0, InBlock(n), depth), State(|a|, InBlock(n), depth),
               State(|a + b|, InBlock(n), depth));
    }
  }

  /** A whole comment goes one deeper and comes back, whatever follows. */
  lemma CommentInside(inner: string, rest: string, n: nat, depth: int)
    requires BlockBody(inner, '*') && n > 0
    ensures InsideAt("/*" + inner + "*/", rest, n, depth)
  {
    var body, tail := "/*" + inner + "*/", "*/" + rest;
    assert tail[0] == '*';
    assert InsideAt(inner, tail, n + 1, depth);
    PassesShifts("/*", inner + tail, State(0, InBlock(n + 1), depth), State(|inner|, InBlock(n + 1), depth));
    var text := body + rest;
    assert text == "/*" + (inner + tail);
    assert text[0] == '/' && text[1] == '*' && text[|inner| + 2] == '*' && text[|inner| + 3] == '/';
    var last := State(|inner| + 2, InBlock(n + 1), depth);
    assert Next(text, last) == State(|body|, InBlock(n), depth);
    PassesOn(text, State(2, InBlock(n + 1), depth), last, State(|body|, InBlock(n), depth));
  }

  lemma CommentIsBlockBody(inner: string, next: char)
    requires BlockBody(inner, '*')
    ensures BlockBody("/*" + inner + "*/", next)
  {
    var body := "/*" + inner + "*/";
    forall rest: string, n: nat, depth: int | n > 0 && |rest| > 0 && rest[0] == next
      ensures InsideAt(body, rest, n, depth)
    {
      CommentInside(inner, rest, n, depth);
    }
  }

  /** A block comment is stepped over with everything nested in it. */
  lemma BlockSteppedOver(body: string)
    requires BlockBody(body, '*')
    ensures SteppedOver("/*" + body + "*/")
  {
    var piece := "/*" + body + "*/";
    forall rest: string, depth: int
      ensures OverAt(piece, rest, depth)
    {
      var tail := "*/" + rest;
      assert tail[0] == '*';
      assert InsideAt(body, tail, 1, depth);
      PassesShifts("/*", body + tail, State(0, InBlock(1), depth), State(|body|, InBlock(1), depth));
      var text := piece + rest;
      assert text == "/*" + (body + tail);
      assert text[0] == '/' && text[1] == '*' && text[|body| + 2] == '*' && text[|body| + 3] == '/';
      assert Next(text, State(|body| + 2, InBlock(1), depth)) == State(|piece|, Code, depth);
      PassesOn(text, State(2, InBlock(1), depth), State(|body| + 2, InBlock(1), depth), State(|piece|, Code, depth));
    }
  }
}
