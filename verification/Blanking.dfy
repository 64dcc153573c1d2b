/** Script validation looks for forbidden constructs with regular expressions, so it first turns
    comments and string literals into spaces (packages/scripting/src/validate.ts).

    The source jumps: it finds the end of a comment or of a literal and blanks the whole stretch.
    The reference below never looks further than one character ahead: an automaton says, position
    by position, what the character belongs to. The two are proved equal on every text. */
module Blanking {

  // ── The reference: what each character belongs to ────────────────────────────

  datatype Reading =
    | Code
    | LineComment
    | BlockOpener                  // on the star of the opener
    | BlockComment
    | BlockCloser                  // on the slash of the closer
    | Literal(quote: char)
    | Escaped(quote: char)         // on the character after a backslash

  predicate IsQuote(c: char) {
    c == '"' || c == '\'' || c == '`'
  }

  /** Whether the two characters at i are c and d. */
  predicate PairAt(code: string, i: nat, c: char, d: char) {
    i + 1 < |code| && code[i] == c && code[i + 1] == d
  }

  predicate OpensComment(code: string, i: nat) {
    PairAt(code, i, '/', '/') || PairAt(code, i, '/', '*')
  }

  function After(r: Reading, code: string, i: nat): Reading
    requires i < |code|
  {
    match r
    case Code =>
      if PairAt(code, i, '/', '/') then LineComment
      else if PairAt(code, i, '/', '*') then BlockOpener
      else if IsQuote(code[i]) then Literal(code[i])
      else Code
    case LineComment => if code[i] == '\n' then Code else LineComment
    case BlockOpener => BlockComment
    case BlockComment => if PairAt(code, i, '*', '/') then BlockCloser else BlockComment
    case BlockCloser => Code
    case Literal(q) => if code[i] == q then Code else if code[i] == '\\' then Escaped(q) else Literal(q)
    case Escaped(q) => Literal(q)
  }

  /** How the character at i is read, all those before it having been read. */
  function ReadingAt(code: string, i: nat): Reading
    requires i <= |code|
  {
    if i == 0 then Code else After(ReadingAt(code, i - 1), code, i - 1)
  }

  /** A character that is neither inside nor the start of a comment or a literal. */
  predicate IsCode(code: string, i: nat)
    requires i < |code|
  {
    ReadingAt(code, i) == Code && !OpensComment(code, i) && !IsQuote(code[i])
  }

  function Blank(c: char): char {
    if c == '\n' then '\n' else ' '
  }

  function Blanked(code: string): (out: string)
    ensures |out| == |code|
  {
    seq(|code|, i requires 0 <= i < |code| => if IsCode(code, i) then code[i] else Blank(code[i]))
  }

  // ── The scanner ──────────────────────────────────────────────────────────────

  function BlankedRange(code: string, i: nat, stop: nat): string
    requires i <= stop <= |code|
  {
    seq(stop - i, k requires 0 <= k < stop - i => Blank(code[i + k]))
  }

  /** Where `c` next stands at or after `from`; the length of the text when it does not. */
  method IndexOf(code: string, c: char, from: nat) returns (at: nat)
    requires from <= |code|
    ensures from <= at <= |code|
    ensures at < |code| ==> code[at] == c
    ensures forall k | from <= k < at :: code[k] != c
  {
    at := from;
    while at < |code| && code[at] != c
      invariant from <= at <= |code|
      invariant forall k | from <= k < at :: code[k] != c
    {
      at := at + 1;
    }
  }

  method IndexOfPair(code: string, c: char, d: char, from: nat) returns (at: nat)
    requires from <= |code|
    ensures from <= at <= |code|
    ensures at < |code| ==> PairAt(code, at, c, d)
    ensures forall k | from <= k < at :: !PairAt(code, k, c, d)
  {
    at := from;
    while at < |code| && !PairAt(code, at, c, d)
      invariant from <= at <= |code|
      invariant forall k | from <= k < at :: !PairAt(code, k, c, d)
    {
      at := at + 1;
    }
  }

  /** The scanner stands where the reference reads code, or on the newline that ends a line comment. */
  ghost predicate AtCode(code: string, i: nat)
    requires i <= |code|
  {
    i < |code| ==> ReadingAt(code, i) == Code || (ReadingAt(code, i) == LineComment && code[i] == '\n')
  }

  /** Nothing of the stretch is code. */
  ghost predicate Covered(code: string, i: nat, stop: nat)
    requires i <= stop <= |code|
  {
    forall k | i <= k < stop :: !IsCode(code, k)
  }

  lemma {:induction false} LineRun(code: string, i: nat, stop: nat)
    requires i < stop <= |code| && ReadingAt(code, i) == Code && PairAt(code, i, '/', '/')
    requires forall k | i <= k < stop :: code[k] != '\n'
    ensures ReadingAt(code, stop) == LineComment && Covered(code, i, stop)
    decreases stop
  {
    if stop > i + 1 {
      LineRun(code, i, stop - 1);
    }
  }

  lemma {:induction false} BlockRun(code: string, i: nat, stop: nat)
    requires i + 2 <= stop <= |code| && ReadingAt(code, i) == Code && PairAt(code, i, '/', '*')
    requires forall k | i + 2 <= k < stop :: !PairAt(code, k, '*', '/')
    ensures ReadingAt(code, stop) == BlockComment && Covered(code, i, stop)
    decreases stop
  {
    if stop > i + 2 {
      BlockRun(code, i, stop - 1);
    } else {
      assert ReadingAt(code, i + 1) == BlockOpener;
    }
  }

  lemma BlockEnd(code: string, i: nat, end: nat)
    requires i + 2 <= end < |code| && ReadingAt(code, i) == Code && PairAt(code, i, '/', '*')
    requires forall k | i + 2 <= k < end :: !PairAt(code, k, '*', '/')
    requires PairAt(code, end, '*', '/')
    ensures ReadingAt(code, end + 2) == Code && Covered(code, i, end + 2)
  {
    BlockRun(code, i, end);
    assert ReadingAt(code, end + 1) == BlockCloser;
  }

  lemma CoveredIsBlank(code: string, i: nat, stop: nat)
    requires i <= stop <= |code| && Covered(code, i, stop)
    ensures Blanked(code)[..i] + BlankedRange(code, i, stop) == Blanked(code)[..stop]
  {
  }

  /** How many backslashes stand directly before j, counted back to the quote at i. */
  function Backslashes(code: string, i: nat, j: nat): nat
    requires i < j <= |code|
  {
    if j - 1 > i && code[j - 1] == '\\' then 1 + Backslashes(code, i, j - 1) else 0
  }

  /** The quote at j ends the literal that opens at i, unless one before it does: the backslashes before it escape each
      other. */
  predicate Closes(code: string, i: nat, j: nat) {
    i < j < |code| && code[j] == code[i] && Backslashes(code, i, j) % 2 == 0
  }

  /** The literal that opens at i ends after the first quote of its kind that no backslash escapes; one that is never closed
      runs to the end. */
  method EndOfLiteral(code: string, i: nat) returns (stop: nat)
    requires i < |code| && ReadingAt(code, i) == Code && IsQuote(code[i])
    ensures i < stop <= |code| && forall j | i < j < stop - 1 :: !Closes(code, i, j)
    ensures Closes(code, i, stop - 1) || (stop == |code| && forall j | i < j < |code| :: !Closes(code, i, j))
    ensures Covered(code, i, stop) && (stop < |code| ==> ReadingAt(code, stop) == Code)
  {
    var j := i + 1;
    while j < |code| && code[j] != code[i]
      invariant i < j <= |code| + 1
      invariant j <= |code| ==> ReadingAt(code, j) == Literal(code[i]) && Covered(code, i, j)
      invariant j == |code| + 1 ==> Covered(code, i, |code|)
      invariant j <= |code| ==> Backslashes(code, i, j) % 2 == 0
      invariant forall k | i < k < j :: !Closes(code, i, k)
    {
      if code[j] == '\\' {
        j := j + 1;
        assert j < |code| ==> ReadingAt(code, j) == Escaped(code[i]);
      }
      j := j + 1;
    }
    stop := if j + 1 < |code| then j + 1 else |code|;
  }

  method CodeWithoutCommentsAndStrings(code: string) returns (out: string)
    ensures out == Blanked(code)
  {
    out := "";
    var i := 0;
    while i < |code|
      invariant 0 <= i <= |code|
      invariant AtCode(code, i)
      invariant out == Blanked(code)[..i]
    {
      var stop: nat;
      if PairAt(code, i, '/', '/') {
        stop := IndexOf(code, '\n', i);
        LineRun(code, i, stop);
        CoveredIsBlank(code, i, stop);
        out := out + BlankedRange(code, i, stop);
      } else if PairAt(code, i, '/', '*') {
        var end := IndexOfPair(code, '*', '/', i + 2);
        if end == |code| {
          stop := |code|;
          BlockRun(code, i, stop);
        } else {
          stop := end + 2;
          BlockEnd(code, i, end);
        }
        CoveredIsBlank(code, i, stop);
        out := out + BlankedRange(code, i, stop);
      } else if IsQuote(code[i]) {
        stop := EndOfLiteral(code, i);
        CoveredIsBlank(code, i, stop);
        out := out + BlankedRange(code, i, stop);
      } else {
        stop := i + 1;
        out := out + [code[i]];
        assert Blanked(code)[i] == code[i];
      }
      i := stop;
    }
  }

  // ── What the blanked text is good for ────────────────────────────────────────

  /** Nothing left that could start a comment or a literal. */
  ghost predicate Clean(s: string) {
    forall i | 0 <= i < |s| :: !IsQuote(s[i]) && !OpensComment(s, i)
  }

  lemma BlankedKeepsLines(code: string, i: nat)
    requires i < |code|
    ensures Blanked(code)[i] == '\n' <==> code[i] == '\n'
    ensures IsCode(code, i) ==> Blanked(code)[i] == code[i]
    ensures !IsCode(code, i) && code[i] != '\n' ==> Blanked(code)[i] == ' '
  {
  }

  lemma BlankedIsClean(code: string)
    ensures Clean(Blanked(code))
  {
    var out := Blanked(code);
    forall i | 0 <= i < |out|
      ensures !IsQuote(out[i]) && !OpensComment(out, i)
    {
      if out[i] == '/' {
        assert IsCode(code, i) && code[i] == '/';
        if i + 1 < |code| {
          assert code[i + 1] != '/' && code[i + 1] != '*';
          assert out[i + 1] == code[i + 1] || out[i + 1] == Blank(code[i + 1]);
        }
      }
    }
  }

  lemma {:induction false} CleanIsAllCode(s: string, i: nat)
    requires Clean(s) && i <= |s|
    ensures ReadingAt(s, i) == Code
  {
    if i > 0 {
      CleanIsAllCode(s, i - 1);
    }
  }

  /** Blanking changes a text exactly when it has a comment or a literal in it. */
  lemma UnchangedIffClean(s: string)
    ensures Blanked(s) == s <==> Clean(s)
  {
    BlankedIsClean(s);
    if Clean(s) {
      forall i | 0 <= i < |s|
        ensures Blanked(s)[i] == s[i]
      {
        CleanIsAllCode(s, i);
      }
    }
  }

  lemma BlankingIsIdempotent(code: string)
    ensures Blanked(Blanked(code)) == Blanked(code)
  {
    BlankedIsClean(code);
    UnchangedIffClean(Blanked(code));
  }
}
