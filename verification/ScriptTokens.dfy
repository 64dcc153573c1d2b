/** What a script is made of, said without any scanner: code characters, comments and literals, in the order in which they
    are written. Blanking such a text keeps its code and nothing else (packages/scripting/src/validate.ts:69-104), and every
    text is one.
 */
module ScriptTokens {
  import opened Blanking

  /** Inside a literal: a character that stands for itself, or a backslash and what it escapes. */
  datatype Piece = Ordinary(c: char) | Escape(c: char)

  datatype Token =
    | Plain(c: char)
    | Line(text: string)
    | Block(text: string)
    | Quoted(quote: char, pieces: seq<Piece>)
    | OpenBlock(text: string)                                         // never closed
    | OpenQuoted(quote: char, pieces: seq<Piece>, dangling: bool)     // never closed, perhaps after a lone backslash

  function WrittenPieces(pieces: seq<Piece>): string {
    if pieces == [] then ""
    else (match pieces[0] case Ordinary(c) => [c] case Escape(c) => ['\\', c]) + WrittenPieces(pieces[1..])
  }

  function Written(t: Token): (text: string)
    ensures text != ""
  {
    match t
    case Plain(c) => [c]
    case Line(text) => "//" + text
    case Block(text) => "/*" + text + "*/"
    case Quoted(q, pieces) => [q] + WrittenPieces(pieces) + [q]
    case OpenBlock(text) => "/*" + text
    case OpenQuoted(q, pieces, dangling) => [q] + WrittenPieces(pieces) + if dangling then "\\" else ""
  }

  /** The text as it is written. */
  function Render(ts: seq<Token>): string {
    if ts == [] then "" else Written(ts[0]) + Render(ts[1..])
  }

  function Spaces(text: string): (out: string)
    ensures |out| == |text|
  {
    seq(|text|, i requires 0 <= i < |text| => if text[i] == '\n' then '\n' else ' ')
  }

  /** What a token leaves: code as it is, newlines, and spaces for all else. */
  function Left(t: Token): string { if t.Plain? then [t.c] else Spaces(Written(t)) }

  function Meaning(ts: seq<Token>): string {
    if ts == [] then "" else Left(ts[0]) + Meaning(ts[1..])
  }

  predicate NeverClosed(text: string) { forall k | 0 <= k < |text| - 1 :: !PairAt(text, k, '*', '/') }

  /** A literal's characters are neither its quote nor a backslash, unless escaped. */
  predicate PiecesOf(q: char, pieces: seq<Piece>) {
    forall p | p in pieces :: p.Ordinary? ==> p.c != q && p.c != '\\'
  }

  /** The token reads as it is written, before the text that follows: a code character is no quote and opens no comment, a
      line comment ends at the newline or the end, a block comment at its first closer, a literal at its first quote that is
      not escaped. */
  predicate Reads(t: Token, after: string) {
    match t
    case Plain(c) => !IsQuote(c) && (c == '/' && after != "" ==> after[0] != '/' && after[0] != '*')
    case Line(text) => '\n' !in text && (after != "" ==> after[0] == '\n')
    case Block(text) => NeverClosed(text)
    case Quoted(q, pieces) => IsQuote(q) && PiecesOf(q, pieces)
    case OpenBlock(text) => NeverClosed(text) && after == ""
    case OpenQuoted(q, pieces, _) => IsQuote(q) && PiecesOf(q, pieces) && after == ""
  }

  predicate WellFormed(ts: seq<Token>) {
    ts != [] ==> Reads(ts[0], Render(ts[1..])) && WellFormed(ts[1..])
  }

  // ── Blanking keeps the meaning ─────────────────────────────────────────────

  /** From i on the text is a, and then b. */
  predicate Splits(code: string, i: nat, a: string, b: string) {
    i + |a| <= |code| && code[i..i + |a|] == a && code[i + |a|..] == b
  }

  lemma SplitsAt(code: string, i: nat, a: string, b: string)
    requires i <= |code| && code[i..] == a + b
    ensures Splits(code, i, a, b)
  {
    assert |code| - i == |a| + |b|;
    assert code[i..i + |a|] == code[i..][..|a|];
    assert code[i + |a|..] == code[i..][|a|..];
  }

  lemma SplitChar(code: string, i: nat, a: string, b: string, k: nat)
    requires Splits(code, i, a, b) && k < |a|
    ensures code[i + k] == a[k]
  {
    assert code[i..i + |a|][k] == code[i + k];
  }

  lemma SplitBody(code: string, i: nat, head: string, body: string, tail: string, b: string)
    requires Splits(code, i, head + body + tail, b)
    ensures code[i + |head|..i + |head| + |body|] == body
  {
    var a, from := head + body + tail, i + |head|;
    forall k | 0 <= k < |body| ensures code[from + k] == body[k] {
      SplitChar(code, i, a, b, |head| + k);
      assert a[|head| + k] == body[k];
    }
    assert forall k | 0 <= k < |body| :: code[from..from + |body|][k] == body[k];
  }

  lemma CoveredIsSpaces(code: string, i: nat, a: string, b: string)
    requires Splits(code, i, a, b) && Covered(code, i, i + |a|)
    ensures Blanked(code)[i..] == Spaces(a) + Blanked(code)[i + |a|..]
  {
    forall k | 0 <= k < |a| ensures Blanked(code)[i + k] == Spaces(a)[k] { SplitChar(code, i, a, b, k); }
    assert Blanked(code)[i..] == Blanked(code)[i..i + |a|] + Blanked(code)[i + |a|..];
  }

  lemma {:induction false} PiecesRun(code: string, q: char, i: nat, pieces: seq<Piece>)
    requires i <= |code| && IsQuote(q) && PiecesOf(q, pieces) && ReadingAt(code, i) == Literal(q)
    requires i + |WrittenPieces(pieces)| <= |code| && code[i..i + |WrittenPieces(pieces)|] == WrittenPieces(pieces)
    ensures var stop := i + |WrittenPieces(pieces)|; ReadingAt(code, stop) == Literal(q) && Covered(code, i, stop)
    decreases |pieces|
  {
    if pieces != [] {
      var p := pieces[0];
      var first := match p case Ordinary(c) => [c] case Escape(c) => ['\\', c];
      var stop, text := i + |WrittenPieces(pieces)|, WrittenPieces(pieces);
      assert text == first + WrittenPieces(pieces[1..]);
      assert code[i..stop][0] == code[i];
      assert code[i + |first|..stop] == code[i..stop][|first|..];
      assert p in pieces;
      assert p.Escape? ==> ReadingAt(code, i + 1) == Escaped(q);
      assert ReadingAt(code, i + |first|) == Literal(q);
      assert forall p | p in pieces[1..] :: p in pieces;
      PiecesRun(code, q, i + |first|, pieces[1..]);
    }
  }

  lemma QuoteOpens(code: string, i: nat)
    requires i < |code| && ReadingAt(code, i) == Code && IsQuote(code[i])
    ensures ReadingAt(code, i + 1) == Literal(code[i]) && !IsCode(code, i)
  {}

  lemma QuotedFrom(code: string, i: nat, q: char, pieces: seq<Piece>, after: string)
    requires Splits(code, i, Written(Quoted(q, pieces)), after) && AtCode(code, i) && Reads(Quoted(q, pieces), after)
    ensures var stop := i + |Written(Quoted(q, pieces))|; AtCode(code, stop) && Covered(code, i, stop)
  {
    var body, text := WrittenPieces(pieces), Written(Quoted(q, pieces));
    SplitChar(code, i, text, after, 0);
    SplitChar(code, i, text, after, |body| + 1);
    SplitBody(code, i, [q], body, [q], after);
    QuoteOpens(code, i);
    PiecesRun(code, q, i + 1, pieces);
  }

  lemma OpenQuotedFrom(code: string, i: nat, q: char, pieces: seq<Piece>, dangling: bool)
    requires Splits(code, i, Written(OpenQuoted(q, pieces, dangling)), "")
    requires AtCode(code, i) && Reads(OpenQuoted(q, pieces, dangling), "")
    ensures Covered(code, i, |code|)
  {
    var body, text := WrittenPieces(pieces), Written(OpenQuoted(q, pieces, dangling));
    assert i + |text| == |code|;
    SplitChar(code, i, text, "", 0);
    SplitBody(code, i, [q], body, if dangling then "\\" else "", "");
    QuoteOpens(code, i);
    PiecesRun(code, q, i + 1, pieces);
  }

  lemma LineFrom(code: string, i: nat, text: string, after: string)
    requires Splits(code, i, Written(Line(text)), after) && AtCode(code, i) && Reads(Line(text), after)
    ensures var stop := i + |Written(Line(text))|; AtCode(code, stop) && Covered(code, i, stop)
  {
    var stop := i + 2 + |text|;
    forall k | i <= k < stop ensures code[k] != '\n' {
      SplitChar(code, i, "//" + text, after, k - i);
      assert k - i >= 2 ==> ("//" + text)[k - i] == text[k - i - 2];
    }
    SplitChar(code, i, "//" + text, after, 0);
    SplitChar(code, i, "//" + text, after, 1);
    LineRun(code, i, stop);
    if stop < |code| { assert code[stop..][0] == code[stop]; }
  }

  /** Within the body of a block comment no closer begins. */
  lemma NoCloserInside(code: string, from: nat, text: string)
    requires from + |text| <= |code| && code[from..from + |text|] == text && NeverClosed(text)
    requires from + |text| < |code| ==> code[from + |text|] != '/'
    ensures forall k | from <= k < from + |text| :: !PairAt(code, k, '*', '/')
  {
    forall k | from <= k < from + |text| ensures !PairAt(code, k, '*', '/') {
      assert code[k] == code[from..from + |text|][k - from];
      if k + 1 < from + |text| {
        assert code[k + 1] == code[from..from + |text|][k + 1 - from];
        assert !PairAt(text, k - from, '*', '/');
      }
    }
  }

  lemma BlockFrom(code: string, i: nat, text: string, after: string)
    requires Splits(code, i, Written(Block(text)), after) && AtCode(code, i) && Reads(Block(text), after)
    ensures var stop := i + |Written(Block(text))|; AtCode(code, stop) && Covered(code, i, stop)
  {
    var written := Written(Block(text));
    SplitChar(code, i, written, after, 0);
    SplitChar(code, i, written, after, 1);
    SplitChar(code, i, written, after, |text| + 2);
    SplitChar(code, i, written, after, |text| + 3);
    SplitBody(code, i, "/*", text, "*/", after);
    NoCloserInside(code, i + 2, text);
    BlockEnd(code, i, i + 2 + |text|);
  }

  lemma OpenBlockFrom(code: string, i: nat, text: string)
    requires Splits(code, i, Written(OpenBlock(text)), "") && AtCode(code, i) && Reads(OpenBlock(text), "")
    ensures Covered(code, i, |code|)
  {
    var written := Written(OpenBlock(text));
    assert i + |written| == |code|;
    SplitChar(code, i, written, "", 0);
    SplitChar(code, i, written, "", 1);
    assert "/*" + text + "" == written;
    SplitBody(code, i, "/*", text, "", "");
    NoCloserInside(code, i + 2, text);
    BlockRun(code, i, |code|);
  }

  lemma PlainFrom(code: string, i: nat, c: char, after: string)
    requires Splits(code, i, [c], after) && AtCode(code, i) && Reads(Plain(c), after)
    ensures AtCode(code, i + 1) && Blanked(code)[i..] == [c] + Blanked(code)[i + 1..]
  {
    SplitChar(code, i, [c], after, 0);
    if i + 1 < |code| { assert code[i + 1..][0] == code[i + 1]; }
    assert Blanked(code)[i..] == [Blanked(code)[i]] + Blanked(code)[i + 1..];
  }

  /** A token that is no code character is covered. */
  lemma TokenCovered(code: string, i: nat, t: Token, after: string)
    requires Splits(code, i, Written(t), after) && AtCode(code, i) && Reads(t, after) && !t.Plain?
    ensures AtCode(code, i + |Written(t)|) && Covered(code, i, i + |Written(t)|)
  {
    match t
    case Plain(_) =>
    case Line(text) => LineFrom(code, i, text, after);
    case Block(text) => BlockFrom(code, i, text, after);
    case Quoted(q, pieces) => QuotedFrom(code, i, q, pieces, after);
    case OpenBlock(text) =>
      assert i + |Written(t)| == |code|;
      OpenBlockFrom(code, i, text);
    case OpenQuoted(q, pieces, dangling) =>
      assert i + |Written(t)| == |code|;
      OpenQuotedFrom(code, i, q, pieces, dangling);
  }

  /** One token: the scanner stands at code again, and of the token is left what should be. */
  lemma TokenFrom(code: string, i: nat, t: Token, after: string)
    requires Splits(code, i, Written(t), after) && AtCode(code, i) && Reads(t, after)
    ensures AtCode(code, i + |Written(t)|)
    ensures Blanked(code)[i..] == Left(t) + Blanked(code)[i + |Written(t)|..]
  {
    if t.Plain? {
      PlainFrom(code, i, t.c, after);
    } else {
      TokenCovered(code, i, t, after);
      CoveredIsSpaces(code, i, Written(t), after);
    }
  }

  lemma {:induction false} BlankedFrom(code: string, i: nat, ts: seq<Token>)
    requires i <= |code| && code[i..] == Render(ts) && WellFormed(ts) && AtCode(code, i)
    ensures Blanked(code)[i..] == Meaning(ts)
    decreases |ts|
  {
    if ts != [] {
      NextToken(code, i, ts[0], Render(ts[1..]));
      BlankedFrom(code, i + |Written(ts[0])|, ts[1..]);
    }
  }

  lemma NextToken(code: string, i: nat, t: Token, after: string)
    requires i <= |code| && code[i..] == Written(t) + after && AtCode(code, i) && Reads(t, after)
    ensures var next := i + |Written(t)|;
            && next <= |code| && code[next..] == after && AtCode(code, next)
            && Blanked(code)[i..] == Left(t) + Blanked(code)[next..]
  {
    SplitsAt(code, i, Written(t), after);
    TokenFrom(code, i, t, after);
  }

  /** BLANKING KEEPS THE MEANING of every list of tokens that reads as it is written. */
  lemma BlankingKeepsMeaning(ts: seq<Token>)
    requires WellFormed(ts)
    ensures Blanked(Render(ts)) == Meaning(ts)
  {
    var code := Render(ts);
    assert code[0..] == code && Blanked(code)[0..] == Blanked(code);
    BlankedFrom(code, 0, ts);
  }

  // ── Every text is such a list ──────────────────────────────────────────────

  /** The first place where a line ends, or the length. */
  function LineEnd(text: string): (n: nat)
    ensures n <= |text| && '\n' !in text[..n] && (n < |text| ==> text[n] == '\n')
  {
    if text == "" || text[0] == '\n' then 0 else
      var n := LineEnd(text[1..]);
      assert text[..1 + n] == [text[0]] + text[1..][..n];
      1 + n
  }

  lemma OneMoreCharacter(c: char, text: string)
    requires NeverClosed(text) && !PairAt([c] + text, 0, '*', '/')
    ensures NeverClosed([c] + text)
  {
    forall k | 0 <= k < |text| ensures !PairAt([c] + text, k, '*', '/') {
      if k > 0 && k < |text| { assert !PairAt(text, k - 1, '*', '/'); }
    }
  }

  /** The first closer, or the length. */
  function FirstCloser(text: string): (n: nat)
    ensures n <= |text| && NeverClosed(text[..n]) && (n < |text| ==> PairAt(text, n, '*', '/'))
    ensures n < |text| || NeverClosed(text)
  {
    if text == "" || PairAt(text, 0, '*', '/') then 0 else
      var n := FirstCloser(text[1..]);
      assert text[..1 + n] == [text[0]] + text[1..][..n];
      OneMoreCharacter(text[0], text[1..][..n]);
      assert 1 + n == |text| ==> text[..1 + n] == text;
      1 + n
  }

  /** The pieces of a literal up to its end: its quote, or the end of the text. */
  lemma {:induction false} TakePieces(q: char, text: string) returns (pieces: seq<Piece>, closed: bool, dangling: bool, n: nat)
    requires IsQuote(q)
    ensures PiecesOf(q, pieces) && n <= |text|
    ensures if closed then text[..n] == WrittenPieces(pieces) + [q]
            else n == |text| && text == WrittenPieces(pieces) + if dangling then "\\" else ""
    decreases |text|
  {
    if text == "" {
      pieces, closed, dangling, n := [], false, false, 0;
    } else if text[0] == q {
      pieces, closed, dangling, n := [], true, false, 1;
      assert text[..1] == [q];
    } else if text == "\\" {
      pieces, closed, dangling, n := [], false, true, 1;
    } else {
      var first := if text[0] == '\\' then Escape(text[1]) else Ordinary(text[0]);
      var k := if text[0] == '\\' then 2 else 1;
      var more, m;
      more, closed, dangling, m := TakePieces(q, text[k..]);
      pieces, n := [first] + more, k + m;
      assert pieces[1..] == more;
      assert text[..k] + text[k..] == text && text[..k] + text[k..][..m] == text[..n];
      assert text[..k] == WrittenPieces([first]) by { assert [first][1..] == []; }
      assert WrittenPieces(pieces) == text[..k] + WrittenPieces(more);
    }
  }

  /** The first token of a text. */
  lemma TakeToken(text: string) returns (t: Token, n: nat)
    requires text != ""
    ensures 0 < n <= |text| && Written(t) == text[..n] && Reads(t, text[n..])
  {
    if PairAt(text, 0, '/', '/') {
      var k := LineEnd(text[2..]);
      t, n := Line(text[2..][..k]), k + 2;
      assert text[..n] == text[..2] + text[2..][..k] && text[..2] == "//";
    } else if PairAt(text, 0, '/', '*') {
      var k := FirstCloser(text[2..]);
      assert text[..2] == "/*";
      if k == |text| - 2 {
        t, n := OpenBlock(text[2..]), |text|;
        assert text[..n] == text[..2] + text[2..];
      } else {
        t, n := Block(text[2..][..k]), k + 4;
        assert text[k + 2..k + 4] == "*/";
        assert text[..n] == text[..2] + text[2..][..k] + text[k + 2..k + 4];
      }
    } else if IsQuote(text[0]) {
      var pieces, closed, dangling, m := TakePieces(text[0], text[1..]);
      n := m + 1;
      t := if closed then Quoted(text[0], pieces) else OpenQuoted(text[0], pieces, dangling);
      assert text[..n] == [text[0]] + text[1..][..m];
      assert text[1..][..|text| - 1] == text[1..];
    } else {
      t, n := Plain(text[0]), 1;
      assert text[..1] == [text[0]];
    }
  }

  /** EVERY TEXT is a list of tokens that reads as it is written. */
  lemma {:induction false} EveryTextIsTokens(text: string) returns (ts: seq<Token>)
    ensures WellFormed(ts) && Render(ts) == text
    decreases |text|
  {
    if text == "" {
      ts := [];
    } else {
      var t, n := TakeToken(text);
      var more := EveryTextIsTokens(text[n..]);
      ts := [t] + more;
      assert ts[1..] == more && text[..n] + text[n..] == text;
    }
  }
}
