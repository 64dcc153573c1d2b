/** Names the service catalogue proposes for what a tenant is about to add
    (packages/types/src/catalogForm.ts): a ticket field named after its label, and the ids of the
    sections of a proposed form. A proposal must be well formed and must not be taken, although
    truncation and trimming can bring different labels back to the same name. */
module FreshNames {
  import opened Basics

  // ── Numbers written out ──────────────────────────────────────────────────────

  const DIGITS := "0123456789"

  function Decimal(n: nat): (d: string)
    ensures |d| > 0 && forall k | 0 <= k < |d| :: IsDigit(d[k])
  {
    if n < 10 then [DIGITS[n]] else Decimal(n / 10) + [DIGITS[n % 10]]
  }

  lemma {:induction false} DecimalInjective(i: nat, j: nat)
    requires Decimal(i) == Decimal(j)
    ensures i == j
    decreases i + j
  {
    var a, b := Decimal(i), Decimal(j);
    assert a[|a| - 1] == DIGITS[i % 10] && b[|b| - 1] == DIGITS[j % 10];
    assert i % 10 == j % 10;
    if i >= 10 && j >= 10 {
      assert Decimal(i / 10) == a[..|a| - 1] && Decimal(j / 10) == b[..|b| - 1];
      DecimalInjective(i / 10, j / 10);
    }
  }

  lemma DecimalIsShort(n: nat)
    requires n < 1000
    ensures |Decimal(n)| <= 3
  {
    if n >= 10 {
      assert |Decimal(n / 10)| == |Decimal(n)| - 1;
    }
  }

  // ── Names of ticket fields ───────────────────────────────────────────────────

  predicate IsNameChar(c: char) {
    IsLower(c) || IsDigit(c)
  }

  /** The rule of a tenant's own fields: lower case, digits and underscores, 2 to 40 characters,
      starting with a letter. */
  predicate FieldName(name: string) {
    2 <= |name| <= 40 && IsLower(name[0]) && forall k | 0 <= k < |name| :: IsNameChar(name[k]) || name[k] == '_'
  }

  /** Every run of characters that are neither letters nor digits becomes one underscore. */
  function Collapsed(s: string, inRun: bool): string {
    if s == [] then []
    else if IsNameChar(ToLower(s[0])) then [ToLower(s[0])] + Collapsed(s[1..], false)
    else (if inRun then [] else ['_']) + Collapsed(s[1..], true)
  }

  function TrimEnd(s: string): (t: string)
    ensures t <= s
    ensures t != [] ==> t[|t| - 1] != '_'
    ensures forall k | |t| <= k < |s| :: s[k] == '_'
  {
    if s != [] && s[|s| - 1] == '_' then TrimEnd(s[..|s| - 1]) else s
  }

  function TrimStart(s: string): (t: string)
    ensures |t| <= |s| && t == s[|s| - |t|..]
    ensures t != [] ==> t[0] != '_'
  {
    if s != [] && s[0] == '_' then TrimStart(s[1..]) else s
  }

  function Slice(s: string, n: nat): string {
    if |s| <= n then s else s[..n]
  }

  function Slug(text: string): string {
    TrimEnd(TrimStart(Collapsed(text, false)))
  }

  function Prefixed(slug: string): string {
    if slug == "" || !IsLower(slug[0]) then TrimEnd("campo_" + slug) else slug
  }

  function BaseName(text: string): string {
    Lengthened(TrimEnd(Slice(Prefixed(Slug(text)), 40)))
  }

  /** The rule wants two characters. */
  function Lengthened(base: string): string {
    if |base| < 2 then base + "_1" else base
  }

  /** The i-th alternative to a base that is taken: room is made for the suffix. */
  function Alternative(base: string, i: nat): string
    requires i < 1000
  {
    DecimalIsShort(i);
    TrimEnd(Slice(base, 40 - |Suffix(i)|)) + Suffix(i)
  }

  function Suffix(i: nat): string {
    "_" + Decimal(i)
  }

  // ── A base is a good name, and a good name is its own base ───────────────────

  /** No underscore at the end and never two in a row, on top of the rule. */
  ghost predicate Tidy(name: string) {
    && FieldName(name)
    && name[|name| - 1] != '_'
    && forall k | 0 <= k < |name| - 1 :: name[k] != '_' || name[k + 1] != '_'
  }

  /** Name characters and single underscores. */
  ghost predicate Joined(s: string) {
    && (forall k | 0 <= k < |s| :: IsNameChar(s[k]) || s[k] == '_')
    && (forall k | 0 <= k < |s| - 1 :: s[k] != '_' || s[k + 1] != '_')
  }

  lemma {:induction false} CollapsedIsJoined(s: string, inRun: bool)
    ensures Joined(Collapsed(s, inRun))
    ensures inRun && Collapsed(s, inRun) != [] ==> Collapsed(s, inRun)[0] != '_'
    decreases |s|
  {
    if s != [] {
      CollapsedIsJoined(s[1..], !IsNameChar(ToLower(s[0])));
    }
  }

  /** A joined name that starts with a letter, as every stage after the prefix has it. */
  ghost predicate Stem(s: string) {
    Joined(s) && |s| > 0 && IsLower(s[0])
  }

  lemma SlugIsJoined(text: string)
    ensures Joined(Slug(text))
    ensures Slug(text) != "" ==> Slug(text)[0] != '_'
  {
    CollapsedIsJoined(text, false);
    StartKeepsJoined(Collapsed(text, false));
    EndKeepsJoined(TrimStart(Collapsed(text, false)));
  }

  lemma StartKeepsJoined(s: string)
    requires Joined(s)
    ensures Joined(TrimStart(s))
  {
    PartIsJoined(s, |s| - |TrimStart(s)|, |s|);
  }

  lemma EndKeepsJoined(s: string)
    requires Joined(s)
    ensures Joined(TrimEnd(s)) && (TrimEnd(s) != "" ==> TrimEnd(s)[0] == s[0])
  {
    PartIsJoined(s, 0, |TrimEnd(s)|);
  }

  lemma PartIsJoined(s: string, i: nat, j: nat)
    requires Joined(s) && i <= j <= |s|
    ensures Joined(s[i..j])
  {}

  lemma PrefixedIsStem(slug: string)
    requires Joined(slug) && (slug != "" ==> slug[0] != '_')
    ensures Stem(Prefixed(slug))
  {
    var whole := "campo_" + slug;
    assert whole[0] == 'c' && whole[4] == 'o';
    if slug == "" || !IsLower(slug[0]) {
      assert |TrimEnd(whole)| > 4;
      assert TrimEnd(whole)[0] == whole[0];
      assert Joined(whole);
    }
  }

  lemma CutIsStem(s: string, n: nat)
    requires Stem(s) && n > 0
    ensures Stem(TrimEnd(Slice(s, n))) && |TrimEnd(Slice(s, n))| <= n
  {
    var cut := Slice(s, n);
    assert cut[0] == s[0];
    assert |TrimEnd(cut)| > 0 && TrimEnd(cut)[0] == s[0];
  }

  lemma LengthenedIsTidy(base: string)
    requires Stem(base) && |base| <= 40 && base[|base| - 1] != '_'
    ensures Tidy(Lengthened(base))
  {
    if |base| < 2 {
      assert Lengthened(base) == [base[0], '_', '1'];
    }
  }

  lemma BaseNameIsTidy(text: string)
    ensures Tidy(BaseName(text))
  {
    SlugIsJoined(text);
    var named := Prefixed(Slug(text));
    PrefixedIsStem(Slug(text));
    CutIsStem(named, 40);
    LengthenedIsTidy(TrimEnd(Slice(named, 40)));
  }

  lemma {:induction false} JoinedIsCollapsed(s: string, inRun: bool)
    requires Joined(s)
    requires inRun && s != [] ==> s[0] != '_'
    ensures Collapsed(s, inRun) == s
    decreases |s|
  {
    if s != [] {
      JoinedIsCollapsed(s[1..], !IsNameChar(ToLower(s[0])));
      assert s == [s[0]] + s[1..];
    }
  }

  /** A label is kept as it is exactly when it is already a tidy name, so proposing twice is
      proposing once. */
  lemma {:induction false} TidyIffOwnBase(text: string)
    ensures BaseName(text) == text <==> Tidy(text)
    ensures BaseName(BaseName(text)) == BaseName(text)
  {
    BaseNameIsTidy(text);
    TidyIsOwnBase(BaseName(text));
    if Tidy(text) {
      TidyIsOwnBase(text);
    }
  }

  lemma TidyIsOwnBase(name: string)
    requires Tidy(name)
    ensures BaseName(name) == name
  {
    JoinedIsCollapsed(name, false);
    assert Slug(name) == name;
  }

  // ── The alternatives ─────────────────────────────────────────────────────────

  lemma AlternativeIsFieldName(base: string, i: nat)
    requires FieldName(base) && i < 1000
    ensures FieldName(Alternative(base, i))
  {
    DecimalIsShort(i);
    var stem := TrimEnd(Slice(base, 40 - |Suffix(i)|));
    assert Slice(base, 40 - |Suffix(i)|)[0] == base[0];
    assert |stem| > 0 && stem[0] == base[0];
  }

  lemma AlternativeEnds(base: string, i: nat, k: nat)
    requires i < 1000 && k <= |Decimal(i)|
    ensures |Alternative(base, i)| >= |Decimal(i)| + 1
    ensures Alternative(base, i)[|Alternative(base, i)| - 1 - k]
         == (if k == |Decimal(i)| then '_' else Decimal(i)[|Decimal(i)| - 1 - k])
  {
  }

  /** Whatever the truncation does to the base, the suffix tells alternatives apart: it is what
      follows the last underscore. */
  lemma AlternativesDiffer(base: string, i: nat, j: nat)
    requires i < 1000 && j < 1000 && Alternative(base, i) == Alternative(base, j)
    ensures i == j
  {
    var m, n := |Decimal(i)|, |Decimal(j)|;
    var shorter := if m < n then m else n;
    AlternativeEnds(base, i, shorter);
    AlternativeEnds(base, j, shorter);
    assert m == n;
    forall k | 0 <= k < m
      ensures Decimal(i)[k] == Decimal(j)[k]
    {
      AlternativeEnds(base, i, m - 1 - k);
      AlternativeEnds(base, j, m - 1 - k);
    }
    DecimalInjective(i, j);
  }

  // ── Enough candidates ────────────────────────────────────────────────────────

  ghost function Candidates(f: nat -> string, lo: nat, hi: nat): set<string>
    requires lo <= hi
  {
    set i | lo <= i < hi :: f(i)
  }

  lemma {:induction false} CandidatesCount(f: nat -> string, lo: nat, hi: nat)
    requires lo <= hi
    requires forall i, j | lo <= i < hi && lo <= j < hi && f(i) == f(j) :: i == j
    ensures |Candidates(f, lo, hi)| == hi - lo
    decreases hi
  {
    if lo == hi {
      assert Candidates(f, lo, hi) == {};
    } else {
      CandidatesCount(f, lo, hi - 1);
      var fewer := Candidates(f, lo, hi - 1);
      assert f(hi - 1) !in fewer;
      assert Candidates(f, lo, hi) == fewer + {f(hi - 1)} by {
        forall x
          ensures x in Candidates(f, lo, hi) <==> x in fewer + {f(hi - 1)}
        {
        }
      }
    }
  }

  /** Pigeonhole: among more distinct candidates than there are taken names, one is free. */
  lemma OneIsFree(f: nat -> string, lo: nat, hi: nat, taken: set<string>)
    requires lo <= hi && |taken| < hi - lo
    requires forall i, j | lo <= i < hi && lo <= j < hi && f(i) == f(j) :: i == j
    ensures exists i :: lo <= i < hi && f(i) !in taken
  {
    CandidatesCount(f, lo, hi);
    SubsetIsNoLarger(Candidates(f, lo, hi), taken);
  }

  lemma {:induction false} NamesAtMost(names: seq<string>)
    ensures |ToSet(names)| <= |names|
  {
    if names != [] {
      var rest := names[..|names| - 1];
      NamesAtMost(rest);
      var last := names[|names| - 1];
      assert ToSet(names) == ToSet(rest) + {last} by {
        assert names == rest + [last];
      }
    }
  }

  // ── The field a label gets ───────────────────────────────────────────────────

  /** The first alternative that is free; none of 2 to 998 is when it is 999. */
  ghost predicate FirstFree(base: string, taken: seq<string>, i: nat) {
    && 2 <= i <= 999
    && (forall k | 2 <= k < i :: Alternative(base, k) in taken)
    && (i < 999 ==> Alternative(base, i) !in taken)
  }

  lemma FewTakenLeaveOne(base: string, taken: seq<string>, i: nat)
    requires FirstFree(base, taken, i) && |ToSet(taken)| <= 996
    ensures i < 999
  {
    var f := (k: nat) => if k < 1000 then Alternative(base, k) else "";
    forall k, l | 2 <= k < 999 && 2 <= l < 999 && f(k) == f(l)
      ensures k == l
    {
      AlternativesDiffer(base, k, l);
    }
    OneIsFree(f, 2, 999, ToSet(taken));
    var k :| 2 <= k < 999 && f(k) !in ToSet(taken);
    assert Alternative(base, k) !in taken;
  }

  ghost predicate IsProposal(base: string, taken: seq<string>, clock: string, name: string) {
    if base !in taken then name == base
    else exists i :: FirstFree(base, taken, i) && name == (if i < 999 then Alternative(base, i) else "campo_" + clock)
  }

  /** `clock` is the end of the time in milliseconds, the last resort. */
  method FreeName(base: string, taken: seq<string>, clock: string) returns (name: string)
    requires FieldName(base)
    ensures IsProposal(base, taken, clock, name)
    ensures |ToSet(taken)| <= 996 ==> FieldName(name) && name !in taken
  {
    if base !in taken {
      return base;
    }
    var i := 2;
    while i < 999
      invariant 2 <= i <= 999
      invariant forall k | 2 <= k < i :: Alternative(base, k) in taken
    {
      var candidate := Alternative(base, i);
      if candidate !in taken {
        AlternativeIsFieldName(base, i);
        assert FirstFree(base, taken, i);
        return candidate;
      }
      i := i + 1;
    }
    assert FirstFree(base, taken, 999);
    if |ToSet(taken)| <= 996 {
      FewTakenLeaveOne(base, taken, 999);
    }
    name := "campo_" + clock;
  }

  method FieldNameForLabel(text: string, taken: seq<string>, clock: string) returns (name: string)
    ensures IsProposal(BaseName(text), taken, clock, name)
    ensures |ToSet(taken)| <= 996 ==> FieldName(name) && name !in taken
  {
    BaseNameIsTidy(text);
    name := FreeName(BaseName(text), taken, clock);
  }

  lemma LongIsTidy(long: string)
    requires |long| == 38 && forall k | 0 <= k < 38 :: long[k] == 'a'
    ensures Tidy(long + "_2")
  {
    var text := long + "_2";
    forall k | 0 <= k < 40
      ensures IsNameChar(text[k]) || text[k] == '_'
      ensures text[k] == '_' <==> k == 38
    {
    }
  }

  lemma LongIsAlternative(long: string)
    requires |long| == 38 && forall k | 0 <= k < 38 :: long[k] == 'a'
    ensures Alternative(long + "_2", 2) == long + "_2"
  {
    assert Suffix(2) == "_2";
    assert Slice(long + "_2", 38) == long;
    assert long[37] == 'a';
    assert TrimEnd(long) == long;
  }

  /** One taken name more and the proposal can fail: a base of 40 characters that ends like an
      alternative is itself one of the 997. */
  lemma BoundIsTight() returns (text: string, taken: set<string>)
    ensures |taken| == 997 && BaseName(text) in taken
    ensures forall i | 2 <= i < 999 :: Alternative(BaseName(text), i) in taken
  {
    var long := seq(38, _ => 'a');
    text := long + "_2";
    LongIsTidy(long);
    TidyIsOwnBase(text);
    LongIsAlternative(long);
    taken := AllAlternatives(text);
  }

  /** Exactly the 997 alternatives of a base. */
  lemma AllAlternatives(base: string) returns (taken: set<string>)
    ensures |taken| == 997
    ensures forall i | 2 <= i < 999 :: Alternative(base, i) in taken
  {
    var f := (k: nat) => if k < 1000 then Alternative(base, k) else "";
    forall k, l | 2 <= k < 999 && 2 <= l < 999 && f(k) == f(l)
      ensures k == l
    {
      AlternativesDiffer(base, k, l);
    }
    CandidatesCount(f, 2, 999);
    taken := Candidates(f, 2, 999);
    forall i | 2 <= i < 999
      ensures Alternative(base, i) in taken
    {
      assert f(i) == Alternative(base, i);
    }
  }

  // ── The ids of a proposed form's sections ────────────────────────────────────

  function SectionId(i: nat): string {
    "section_" + Decimal(i)
  }

  lemma SectionIdsDiffer(i: nat, j: nat)
    requires SectionId(i) == SectionId(j)
    ensures i == j
  {
    assert Decimal(i) == SectionId(i)[8..] && Decimal(j) == SectionId(j)[8..];
    DecimalInjective(i, j);
  }

  /** The first of section_1 … section_998 that is free; none is when it is 999. */
  ghost predicate FirstFreeSection(existing: seq<string>, i: nat) {
    && 1 <= i <= 999
    && (forall k | 1 <= k < i :: SectionId(k) in existing)
    && (i < 999 ==> SectionId(i) !in existing)
  }

  ghost predicate IsFreeSectionId(existing: seq<string>, clock: string, id: string) {
    exists i :: FirstFreeSection(existing, i) && id == (if i < 999 then SectionId(i) else "section_" + clock)
  }

  lemma RoomLeavesSection(existing: seq<string>)
    requires |existing| < 998
    ensures exists i :: 1 <= i < 999 && SectionId(i) !in existing
  {
    forall k: nat, l: nat | 1 <= k < 999 && 1 <= l < 999 && SectionId(k) == SectionId(l)
      ensures k == l
    {
      SectionIdsDiffer(k, l);
    }
    NamesAtMost(existing);
    OneIsFree(SectionId, 1, 999, ToSet(existing));
    var k :| 1 <= k < 999 && SectionId(k) !in ToSet(existing);
    assert SectionId(k) !in existing;
  }

  method FreeSectionId(existing: seq<string>, clock: string) returns (id: string)
    ensures IsFreeSectionId(existing, clock, id)
    ensures |existing| < 998 ==> id !in existing
  {
    var i := 1;
    while i < 999
      invariant 1 <= i <= 999
      invariant forall k | 1 <= k < i :: SectionId(k) in existing
    {
      var candidate := SectionId(i);
      if candidate !in existing {
        assert FirstFreeSection(existing, i);
        return candidate;
      }
      i := i + 1;
    }
    assert FirstFreeSection(existing, 999);
    if |existing| < 998 {
      RoomLeavesSection(existing);
    }
    id := "section_" + clock;
  }

  /** A proposed section keeps its id unless the document or an earlier section has it already. */
  method SectionIds(proposed: seq<string>, taken: seq<string>, clock: string) returns (ids: seq<string>)
    ensures |ids| == |proposed|
    ensures forall k | 0 <= k < |ids| ::
              if proposed[k] in taken + ids[..k] then IsFreeSectionId(taken + ids[..k], clock, ids[k])
              else ids[k] == proposed[k]
    ensures |taken| + |proposed| <= 998 ==> Distinct(ids) && forall k | 0 <= k < |ids| :: ids[k] !in taken
  {
    ids := [];
    var used := taken;
    for n := 0 to |proposed|
      invariant |ids| == n && used == taken + ids
      invariant forall k | 0 <= k < n ::
                  if proposed[k] in taken + ids[..k] then IsFreeSectionId(taken + ids[..k], clock, ids[k])
                  else ids[k] == proposed[k]
      invariant |taken| + |proposed| <= 998 ==> Distinct(ids) && forall k | 0 <= k < |ids| :: ids[k] !in taken
    {
      var id := proposed[n];
      if id in used {
        id := FreeSectionId(used, clock);
      }
      ghost var before := ids;
      used := used + [id];
      ids := ids + [id];
      assert ids[..n] == before;
      assert forall k | 0 <= k < n :: ids[..k] == before[..k];
    }
  }

  // ── What a label becomes, word by word ───────────────────────────────────────

  predicate IsWordChar(c: char) { IsLower(c) || IsUpper(c) || IsDigit(c) }

  /** A word of a label and what stands before it: spaces, signs, anything that is no letter or digit. */
  datatype Part = Part(gap: string, word: string)

  predicate IsGap(gap: string) { forall c | c in gap :: !IsWordChar(c) }

  /** The words are whole: they do not touch. */
  predicate Parts(ps: seq<Part>) {
    && (forall p | p in ps :: IsGap(p.gap) && p.word != "" && forall c | c in p.word :: IsWordChar(c))
    && forall k | 1 <= k < |ps| :: ps[k].gap != ""
  }

  function Label(ps: seq<Part>, tail: string): string {
    if ps == [] then tail else ps[0].gap + ps[0].word + Label(ps[1..], tail)
  }

  function LowerCase(w: string): (r: string)
    ensures |r| == |w|
  {
    seq(|w|, i requires 0 <= i < |w| => ToLower(w[i]))
  }

  /** The words in lower case, one underscore between any two. */
  function WordsJoined(ps: seq<Part>): string {
    if ps == [] then "" else LowerCase(ps[0].word) + if |ps| == 1 then "" else "_" + WordsJoined(ps[1..])
  }

  lemma {:induction false} CollapsedWord(w: string, rest: string, inRun: bool)
    requires w != "" && forall c | c in w :: IsWordChar(c)
    ensures Collapsed(w + rest, inRun) == LowerCase(w) + Collapsed(rest, false)
  {
    var s := w + rest;
    assert s[0] == w[0] && s[1..] == w[1..] + rest && w[0] in w;
    assert LowerCase(w) == [ToLower(w[0])] + LowerCase(w[1..]);
    if |w| > 1 {
      assert forall c | c in w[1..] :: c in w;
      CollapsedWord(w[1..], rest, false);
      assert [ToLower(w[0])] + (LowerCase(w[1..]) + Collapsed(rest, false)) == LowerCase(w) + Collapsed(rest, false);
    } else {
      assert s[1..] == rest;
    }
  }

  lemma {:induction false} CollapsedGap(gap: string, rest: string, inRun: bool)
    requires IsGap(gap)
    ensures Collapsed(gap + rest, inRun)
         == if gap == "" then Collapsed(rest, inRun) else (if inRun then "" else "_") + Collapsed(rest, true)
  {
    var s := gap + rest;
    if gap == "" {
      assert s == rest;
    } else {
      assert s[0] == gap[0] && s[1..] == gap[1..] + rest && gap[0] in gap;
      assert forall c | c in gap[1..] :: c in gap;
      CollapsedGap(gap[1..], rest, true);
      assert "" + Collapsed(rest, true) == Collapsed(rest, true);
    }
  }

  function Underscore(gap: string): string { if gap == "" then "" else "_" }

  lemma CollapsedPart(p: Part, rest: string)
    requires IsGap(p.gap) && p.word != "" && forall c | c in p.word :: IsWordChar(c)
    ensures Collapsed(p.gap + p.word + rest, false) == Underscore(p.gap) + LowerCase(p.word) + Collapsed(rest, false)
  {
    assert p.gap + p.word + rest == p.gap + (p.word + rest);
    CollapsedGap(p.gap, p.word + rest, false);
    CollapsedWord(p.word, rest, p.gap != "");
    Regroup(Underscore(p.gap), LowerCase(p.word), Collapsed(rest, false));
  }

  lemma Regroup(a: string, b: string, c: string)
    ensures a + (b + c) == a + b + c
  {}

  lemma CollapsedTail(tail: string)
    requires IsGap(tail)
    ensures Collapsed(tail, false) == Underscore(tail)
  {
    CollapsedGap(tail, "", false);
    assert tail + "" == tail;
  }

  /** A label before it is trimmed: the joined words between at most one underscore at either end. */
  lemma {:induction false} CollapsedLabel(ps: seq<Part>, tail: string)
    requires Parts(ps) && ps != [] && IsGap(tail)
    ensures Collapsed(Label(ps, tail), false) == Underscore(ps[0].gap) + WordsJoined(ps) + Underscore(tail)
    decreases |ps|
  {
    var p := ps[0];
    assert p in ps;
    CollapsedPart(p, Label(ps[1..], tail));
    if |ps| == 1 {
      CollapsedTail(tail);
      assert LowerCase(p.word) + "" == LowerCase(p.word);
    } else {
      assert forall q | q in ps[1..] :: q in ps;
      CollapsedLabel(ps[1..], tail);
      assert ps[1..][0] == ps[1];
      MoreWords(Underscore(p.gap), LowerCase(p.word), WordsJoined(ps[1..]), Underscore(tail));
    }
  }

  lemma MoreWords(left: string, word: string, more: string, right: string)
    ensures left + word + ("_" + more + right) == left + (word + ("_" + more)) + right
  {}

  lemma {:induction false} WordsJoinedEnds(ps: seq<Part>)
    requires Parts(ps) && ps != []
    ensures var w := WordsJoined(ps); w != "" && w[0] != '_' && w[|w| - 1] != '_'
    decreases |ps|
  {
    var first := ps[0].word;
    assert ps[0] in ps && first[0] in first && first[|first| - 1] in first;
    if |ps| > 1 {
      assert forall q | q in ps[1..] :: q in ps;
      WordsJoinedEnds(ps[1..]);
    }
  }

  lemma StartTrimmed(gap: string, s: string)
    requires s != "" && s[0] != '_'
    ensures TrimStart(Underscore(gap) + s) == s
  {
    assert ("_" + s)[1..] == s && "" + s == s;
  }

  lemma EndTrimmed(s: string, gap: string)
    requires s != "" && s[|s| - 1] != '_'
    ensures TrimEnd(s + Underscore(gap)) == s
  {
    var t := s + "_";
    assert t[|t| - 1] == '_' && t[..|t| - 1] == s && s + "" == s;
    assert TrimEnd(s) == s;
  }

  /** A LABEL'S NAME: its words in lower case joined by single underscores, whatever stands around them. */
  lemma SlugIsWordsJoined(ps: seq<Part>, tail: string)
    requires Parts(ps) && IsGap(tail)
    ensures Slug(Label(ps, tail)) == WordsJoined(ps)
  {
    if ps == [] {
      CollapsedTail(tail);
      assert TrimStart("_") == "" by { assert "_"[1..] == ""; }
    } else {
      CollapsedLabel(ps, tail);
      WordsJoinedEnds(ps);
      var w := WordsJoined(ps);
      assert (w + Underscore(tail))[0] == w[0];
      Regroup(Underscore(ps[0].gap), w, Underscore(tail));
      StartTrimmed(ps[0].gap, w + Underscore(tail));
      EndTrimmed(w, tail);
    }
  }

  /** It is the base as it is when it fits the rule. */
  lemma FittingLabelIsKept(ps: seq<Part>, tail: string)
    requires Parts(ps) && IsGap(tail) && 2 <= |WordsJoined(ps)| <= 40 && IsLower(WordsJoined(ps)[0])
    ensures BaseName(Label(ps, tail)) == WordsJoined(ps)
  {
    SlugIsWordsJoined(ps, tail);
    WordsJoinedEnds(ps);
  }

  /** Every text is a label of that kind. */
  lemma {:induction false} EveryTextIsALabel(text: string) returns (ps: seq<Part>, tail: string)
    ensures Parts(ps) && IsGap(tail) && Label(ps, tail) == text
    decreases |text|
  {
    if text == "" {
      ps, tail := [], "";
    } else {
      ps, tail := EveryTextIsALabel(text[1..]);
      assert text == [text[0]] + text[1..];
      if ps == [] { ps, tail := BeforeTail(text[0], tail); } else { ps := BeforeParts(text[0], ps, tail); }
    }
  }

  /** One more character in front. */
  lemma BeforeTail(c: char, tail: string) returns (ps: seq<Part>, tail': string)
    requires IsGap(tail)
    ensures Parts(ps) && IsGap(tail') && Label(ps, tail') == [c] + tail
  {
    if IsWordChar(c) {
      ps, tail' := [Part("", [c])], tail;
      assert Label(ps, tail') == "" + [c] + Label([], tail);
    } else {
      ps, tail' := [], [c] + tail;
    }
  }

  lemma BeforeParts(c: char, ps: seq<Part>, tail: string) returns (all: seq<Part>)
    requires Parts(ps) && ps != []
    ensures Parts(all) && Label(all, tail) == [c] + Label(ps, tail)
  {
    var p, more, rest := ps[0], ps[1..], Label(ps[1..], tail);
    assert p in ps && forall q | q in more :: q in ps;
    if IsWordChar(c) && p.gap != "" {
      all := [Part("", [c])] + ps;
      assert all[1..] == ps;
      Regroup("", [c], Label(ps, tail));
    } else if IsWordChar(c) {
      all := [Part("", [c] + p.word)] + more;
      Regroup([c], p.word, rest);
    } else {
      all := [Part([c] + p.gap, p.word)] + more;
      Regroup([c], p.gap + p.word, rest);
      Regroup([c], p.gap, p.word);
    }
  }
}
