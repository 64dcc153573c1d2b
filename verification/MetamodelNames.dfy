/** The names a CI metamodel emits into a schema (packages/schema-generator/src/nameValidation.ts,
    packages/schema-generator/src/stringUtils.ts), over ASCII strings.
 */
module MetamodelNames {
  import opened Basics
  import opened Wrappers

  function Lower(s: string): (r: string)
    ensures |r| == |s| && forall i | 0 <= i < |s| :: r[i] == ToLower(s[i])
  {
    if s == "" then "" else [ToLower(s[0])] + Lower(s[1..])
  }

  /** `^[a-z][a-z0-9_]*$` */
  predicate IsTypeName(s: string) {
    s != "" && IsLower(s[0]) && forall c | c in s :: IsLower(c) || IsDigit(c) || c == '_'
  }

  /** `^[a-z][A-Za-z0-9]*$` */
  predicate IsFieldName(s: string) {
    s != "" && IsLower(s[0]) && forall c | c in s :: IsLower(c) || IsUpper(c) || IsDigit(c)
  }

  // ── Pascal case and plurals ────────────────────────────────────────────────

  /** `split('_')`. */
  function Words(s: string): (r: seq<string>)
    ensures r != []
  {
    if s == "" then [""]
    else if s[0] == '_' then [""] + Words(s[1..])
    else var rest := Words(s[1..]); [[s[0]] + rest[0]] + rest[1..]
  }

  function Capitalized(w: string): string { if w == "" then "" else [ToUpper(w[0])] + w[1..] }

  function JoinCapitalized(ws: seq<string>): string {
    if ws == [] then "" else Capitalized(ws[0]) + JoinCapitalized(ws[1..])
  }

  function PascalCase(s: string): string { JoinCapitalized(Words(s)) }

  function Pluralize(s: string): string {
    if s != "" && s[|s| - 1] == 's' then s + "es"
    else if s != "" && s[|s| - 1] == 'y' then s[..|s| - 1] + "ies"
    else s + "s"
  }

  function LowerFirst(s: string): string { if s == "" then "" else [ToLower(s[0])] + s[1..] }

  /** The name without its underscores. */
  function Strip(s: string): string {
    if s == "" then "" else (if s[0] == '_' then "" else [s[0]]) + Strip(s[1..])
  }

  lemma LowerConcat(a: string, b: string)
    ensures Lower(a + b) == Lower(a) + Lower(b)
  {}

  lemma LowerCapitalized(w: string)
    ensures Lower(Capitalized(w)) == Lower(w)
  {}

  lemma LowerOfLower(s: string)
    requires forall c | c in s :: !IsUpper(c)
    ensures Lower(s) == s
  {}

  lemma LowerJoin(w: string, ws: seq<string>)
    ensures Lower(JoinCapitalized([w] + ws)) == Lower(w) + Lower(JoinCapitalized(ws))
  {
    assert ([w] + ws)[1..] == ws;
    LowerConcat(Capitalized(w), JoinCapitalized(ws));
    LowerCapitalized(w);
  }

  /** A letter more in the first word is a letter more in the name. */
  lemma {:induction false} LowerLonger(c: char, w: string, ws: seq<string>)
    ensures Lower(JoinCapitalized([[c] + w] + ws)) == [ToLower(c)] + Lower(JoinCapitalized([w] + ws))
  {
    LowerJoin([c] + w, ws);
    LowerJoin(w, ws);
    LowerCons(c, w);
    Associates([ToLower(c)], Lower(w), Lower(JoinCapitalized(ws)));
  }

  lemma LowerCons(c: char, w: string)
    ensures Lower([c] + w) == [ToLower(c)] + Lower(w)
  {
    assert ([c] + w)[1..] == w;
  }

  lemma Associates(a: string, b: string, c: string)
    ensures a + b + c == a + (b + c)
  {}

  /** Ignoring case, the Pascal name is the slug without its underscores. */
  lemma {:induction false} PascalIsStripped(s: string)
    requires forall c | c in s :: !IsUpper(c)
    ensures Lower(PascalCase(s)) == Strip(s)
  {
    if s != "" {
      assert forall c | c in s[1..] :: c in s;
      PascalIsStripped(s[1..]);
      var rest := Words(s[1..]);
      if s[0] == '_' {
        LowerJoin("", rest);
      } else {
        assert s[0] in s;
        LowerLonger(s[0], rest[0], rest[1..]);
        assert [rest[0]] + rest[1..] == rest;
      }
    }
  }

  lemma {:induction false} StripRight(s: string)
    ensures forall c :: c in Strip(s) <==> c in s && c != '_'
    ensures '_' !in s ==> Strip(s) == s
  {
    if s != "" {
      StripRight(s[1..]);
      assert s == [s[0]] + s[1..];
    }
  }

  // ── The emitted names ──────────────────────────────────────────────────────

  datatype Emitted = Emitted(types: seq<string>, queries: seq<string>, mutations: seq<string>)

  function EmittedNames(name: string): Emitted {
    var pascal := PascalCase(name);
    Emitted([pascal, pascal + "sResult", "Create" + pascal + "Input", "Update" + pascal + "Input"],
            [LowerFirst(Pluralize(pascal)), name],
            ["create" + pascal, "update" + pascal, "delete" + pascal])
  }

  function LowerAll(names: seq<string>): seq<string> {
    seq(|names|, i requires 0 <= i < |names| => Lower(names[i]))
  }

  lemma PluralIsLonger(s: string)
    requires s != ""
    ensures |Pluralize(s)| > |s| && |LowerFirst(Pluralize(s))| == |Pluralize(s)|
    ensures '_' !in s ==> '_' !in Pluralize(s)
  {}

  lemma PascalHasNoUnderscore(name: string)
    requires IsTypeName(name)
    ensures '_' !in PascalCase(name) && PascalCase(name) != ""
  {
    PascalIsStripped(name);
    StripRight(name);
    var p := PascalCase(name);
    assert name[0] in name && name[0] in Strip(name);
    forall i | 0 <= i < |p| ensures p[i] != '_' {
      assert Lower(p)[i] in Strip(name);
    }
  }

  lemma TypesDistinct(p: string)
    ensures Distinct(LowerAll([p, p + "sResult", "Create" + p + "Input", "Update" + p + "Input"]))
  {
    var c, u := "Create" + p + "Input", "Update" + p + "Input";
    assert |p| < |p + "sResult"| < |c| == |u|;
    assert Lower(c)[0] == 'c' && Lower(u)[0] == 'u';
  }

  lemma MutationsDistinct(p: string)
    ensures Distinct(LowerAll(["create" + p, "update" + p, "delete" + p]))
  {
    var c, u, d := "create" + p, "update" + p, "delete" + p;
    assert Lower(c)[0] == 'c' && Lower(u)[0] == 'u' && Lower(d)[0] == 'd';
  }

  /** The plural query never is the slug itself: it has no underscore and is longer than the slug without its own. */
  lemma QueriesDistinct(name: string)
    requires IsTypeName(name)
    ensures Distinct(LowerAll(EmittedNames(name).queries))
  {
    var q := LowerFirst(Pluralize(PascalCase(name)));
    PascalHasNoUnderscore(name);
    PluralIsLonger(PascalCase(name));
    PascalIsStripped(name);
    StripRight(name);
    LowerOfLower(name);
    NoUnderscoreLower(q);
  }

  /** Within one type, the emitted names of each kind differ ignoring case, for every type name. */
  lemma OneTypeDistinct(name: string)
    requires IsTypeName(name)
    ensures var e := EmittedNames(name);
            Distinct(LowerAll(e.types)) && Distinct(LowerAll(e.queries)) && Distinct(LowerAll(e.mutations))
  {
    TypesDistinct(PascalCase(name));
    QueriesDistinct(name);
    MutationsDistinct(PascalCase(name));
  }

  lemma NoUnderscoreLower(s: string)
    ensures '_' !in s ==> '_' !in Lower(s)
  {}

  // ── The check ──────────────────────────────────────────────────────────────

  /** The lower-case names already taken in a schema. */
  datatype Reserved = Reserved(types: set<string>, queries: set<string>, mutations: set<string>)

  datatype Field = Field(name: string, isSystem: bool)

  datatype CIType = CIType(name: string, fields: seq<Field>)

  datatype NameError = TypeSyntax(name: string) | TypeTaken(name: string, generated: string)
                     | FieldSyntax(name: string) | FieldReserved(name: string)
                     | FieldBase(name: string) | FieldDuplicate(name: string, existing: string)

  /** `toSnakeCase`: the property a field writes. */
  function SnakeCase(s: string): string {
    if s == "" then "" else (if IsUpper(s[0]) then ['_', ToLower(s[0])] else [s[0]]) + SnakeCase(s[1..])
  }

  const RESERVED_PROPERTIES: set<string> :=
    {"tenant_id", "id", "created_at", "updated_at", "labels", "name_key", "health", "health_source", "last_event_at",
     "chain", "type"}

  const RESERVED_PREFIX: string := "discovery_"

  const BASE_FIELDS: set<string> :=
    {"id", "name", "type", "status", "environment", "description", "chain", "isInfrastructure", "createdAt", "updatedAt",
     "notes", "ownerGroup", "supportGroup", "dependencies", "dependents", "health", "healthSource", "lastEventAt",
     "ownerGroupId", "supportGroupId"}

  /** A field the schema emits as the tenant's own. */
  predicate IsCustom(f: Field) { !f.isSystem && f.name !in BASE_FIELDS }

  predicate WritesOwnProperty(name: string) {
    SnakeCase(name) !in RESERVED_PROPERTIES && !(RESERVED_PREFIX <= SnakeCase(name))
  }

  function FirstTaken(names: seq<string>, taken: set<string>): (r: Option<string>)
    ensures r.None? <==> forall x | x in LowerAll(names) :: x !in taken
    ensures r.Some? ==> r.value in names && Lower(r.value) in taken
  {
    if names == [] then None
    else
      assert LowerAll(names) == [Lower(names[0])] + LowerAll(names[1..]);
      if Lower(names[0]) in taken then Some(names[0]) else FirstTaken(names[1..], taken)
  }

  predicate Free(names: seq<string>, taken: set<string>) { forall x | x in LowerAll(names) :: x !in taken }

  /** `assertCITypeName`. */
  function CheckTypeName(name: string, taken: Reserved): (r: Option<NameError>)
    ensures r.None? <==> IsTypeName(name) && Free(EmittedNames(name).types, taken.types)
                         && Free(EmittedNames(name).queries, taken.queries)
                         && Free(EmittedNames(name).mutations, taken.mutations)
  {
    if !IsTypeName(name) then Some(TypeSyntax(name)) else
    var e := EmittedNames(name);
    if FirstTaken(e.types, taken.types).Some? then Some(TypeTaken(name, FirstTaken(e.types, taken.types).value))
    else if FirstTaken(e.queries, taken.queries).Some?
    then Some(TypeTaken(name, FirstTaken(e.queries, taken.queries).value))
    else if FirstTaken(e.mutations, taken.mutations).Some?
    then Some(TypeTaken(name, FirstTaken(e.mutations, taken.mutations).value))
    else None
  }

  predicate FieldsRight(fields: seq<Field>) {
    forall f | f in fields && IsCustom(f) :: IsFieldName(f.name) && WritesOwnProperty(f.name)
  }

  /** All lower-case names of one kind the listed types emit, in order. */
  function AllTypes(types: seq<CIType>): seq<string> {
    if types == [] then [] else AllTypes(types[..|types| - 1]) + LowerAll(EmittedNames(types[|types| - 1].name).types)
  }

  function AllQueries(types: seq<CIType>): seq<string> {
    if types == [] then [] else AllQueries(types[..|types| - 1]) + LowerAll(EmittedNames(types[|types| - 1].name).queries)
  }

  function AllMutations(types: seq<CIType>): seq<string> {
    if types == [] then [] else
      AllMutations(types[..|types| - 1]) + LowerAll(EmittedNames(types[|types| - 1].name).mutations)
  }

  predicate Fresh(names: seq<string>, reserved: set<string>) {
    Distinct(names) && forall x | x in names :: x !in reserved
  }

  /** What a schema without collisions is, said without the check: names of one kind differ ignoring case, across all
      types, and from the reserved ones; custom fields are identifiers that write no property of the product. */
  predicate Generatable(types: seq<CIType>, reserved: Reserved) {
    && (forall t | t in types :: IsTypeName(t.name) && FieldsRight(t.fields))
    && Fresh(AllTypes(types), reserved.types)
    && Fresh(AllQueries(types), reserved.queries)
    && Fresh(AllMutations(types), reserved.mutations)
  }

  lemma FreshExtends(names: seq<string>, more: seq<string>, reserved: set<string>)
    requires Fresh(names, reserved) && Distinct(more)
    ensures Fresh(names + more, reserved) <==> forall x | x in more :: x !in reserved + ToSet(names)
  {
    var all := names + more;
    if forall x | x in more :: x !in reserved + ToSet(names) {
      forall i, j | 0 <= i < j < |all| ensures all[i] != all[j] {
        if i < |names| <= j { assert all[j] in more && all[i] in names; }
      }
    } else {
      var x :| x in more && x in reserved + ToSet(names);
      assert x in all;
      if x in names {
        var i :| 0 <= i < |names| && names[i] == x;
        var j :| 0 <= j < |more| && more[j] == x;
        assert all[i] == all[|names| + j];
      }
    }
  }

  lemma StaysFresh(names: seq<string>, emitted: seq<string>, reserved: set<string>)
    requires Fresh(names, reserved) && Distinct(LowerAll(emitted))
    ensures Fresh(names + LowerAll(emitted), reserved) <==> Free(emitted, reserved + ToSet(names))
  {
    FreshExtends(names, LowerAll(emitted), reserved);
  }

  lemma PrefixFresh(names: seq<string>, more: seq<string>, reserved: set<string>)
    requires Fresh(names + more, reserved)
    ensures Fresh(names, reserved)
  {
    var all := names + more;
    forall i, j | 0 <= i < j < |names| ensures names[i] != names[j] { assert all[i] != all[j]; }
    forall x | x in names ensures x !in reserved { assert x in all; }
  }

  /** The names taken after the types of a list. */
  function Taken(types: seq<CIType>, reserved: Reserved): Reserved {
    Reserved(reserved.types + ToSet(AllTypes(types)), reserved.queries + ToSet(AllQueries(types)),
             reserved.mutations + ToSet(AllMutations(types)))
  }

  lemma AllOfOneMore(types: seq<CIType>, t: CIType)
    ensures var e, all := EmittedNames(t.name), types + [t];
            && AllTypes(all) == AllTypes(types) + LowerAll(e.types)
            && AllQueries(all) == AllQueries(types) + LowerAll(e.queries)
            && AllMutations(all) == AllMutations(types) + LowerAll(e.mutations)
  {
    assert (types + [t])[..|types + [t]| - 1] == types;
  }

  /** One more type: the list stays collision-free exactly if the check accepts its name against what is taken. */
  lemma {:induction false} OneMoreType(types: seq<CIType>, t: CIType, reserved: Reserved)
    requires Generatable(types, reserved)
    ensures Generatable(types + [t], reserved)
       <==> CheckTypeName(t.name, Taken(types, reserved)).None? && FieldsRight(t.fields)
  {
    var e, all := EmittedNames(t.name), types + [t];
    AllOfOneMore(types, t);
    assert t in all && forall u | u in all :: u in types || u == t;
    if IsTypeName(t.name) {
      OneTypeDistinct(t.name);
      StaysFresh(AllTypes(types), e.types, reserved.types);
      StaysFresh(AllQueries(types), e.queries, reserved.queries);
      StaysFresh(AllMutations(types), e.mutations, reserved.mutations);
    }
  }

  lemma {:induction false} PrefixGeneratable(types: seq<CIType>, k: nat, reserved: Reserved)
    requires Generatable(types, reserved) && k <= |types|
    ensures Generatable(types[..k], reserved)
    decreases |types|
  {
    if k == |types| {
      assert types[..k] == types;
    } else {
      var fewer := types[..|types| - 1];
      OneFewer(types, reserved);
      assert fewer[..k] == types[..k];
      PrefixGeneratable(fewer, k, reserved);
    }
  }

  lemma {:induction false} OneFewer(types: seq<CIType>, reserved: Reserved)
    requires Generatable(types, reserved) && types != []
    ensures Generatable(types[..|types| - 1], reserved)
  {
    var n := |types| - 1;
    assert types == types[..n] + [types[n]];
    AllOfOneMore(types[..n], types[n]);
    PrefixFresh(AllTypes(types[..n]), LowerAll(EmittedNames(types[n].name).types), reserved.types);
    PrefixFresh(AllQueries(types[..n]), LowerAll(EmittedNames(types[n].name).queries), reserved.queries);
    PrefixFresh(AllMutations(types[..n]), LowerAll(EmittedNames(types[n].name).mutations), reserved.mutations);
  }

  /** The first of the names that is the given one ignoring case. */
  function FirstAlike(name: string, existing: seq<string>): (r: Option<string>)
    ensures r.None? <==> forall x | x in existing :: Lower(x) != Lower(name)
    ensures r.Some? ==> r.value in existing && Lower(r.value) == Lower(name)
  {
    if existing == [] then None
    else
      assert existing[0] in existing;
      if Lower(existing[0]) == Lower(name) then Some(existing[0])
      else
        var rest := FirstAlike(name, existing[1..]);
        assert rest.Some? ==> rest.value in existing;
        assert forall x | x in existing :: x == existing[0] || x in existing[1..];
        rest
  }

  /** `assertCIFieldName`: an identifier that writes no property of the product, is no base field, and is not there yet. */
  function CheckFieldName(name: string, existing: seq<string>): (r: Option<NameError>)
    ensures r.None? <==> IsFieldName(name) && WritesOwnProperty(name) && name !in BASE_FIELDS
                         && forall x | x in existing :: Lower(x) != Lower(name)
  {
    if !IsFieldName(name) then Some(FieldSyntax(name))
    else if !WritesOwnProperty(name) then Some(FieldReserved(name))
    else if name in BASE_FIELDS then Some(FieldBase(name))
    else
      var alike := FirstAlike(name, existing);
      if alike.Some? then Some(FieldDuplicate(name, alike.value)) else None
  }

  /** A field that is accepted beside well-formed ones writes a property that none of them writes. */
  lemma AcceptedFieldIsNew(name: string, existing: seq<string>)
    requires CheckFieldName(name, existing).None? && forall x | x in existing :: IsFieldName(x)
    ensures name !in existing && forall x | x in existing :: SnakeCase(x) != SnakeCase(name)
  {
    forall x | x in existing ensures x != name && SnakeCase(x) != SnakeCase(name) {
      SnakeCaseInjective(x, name);
    }
  }

  /** A field of a stored type: a system or base field is not emitted, so it is not looked at. */
  function CheckField(f: Field): (r: Option<NameError>)
    ensures r.None? <==> IsCustom(f) ==> IsFieldName(f.name) && WritesOwnProperty(f.name)
  {
    if IsCustom(f) then CheckFieldName(f.name, []) else None
  }

  method CheckFields(fields: seq<Field>) returns (r: Option<NameError>)
    ensures r.None? <==> FieldsRight(fields)
  {
    for k := 0 to |fields|
      invariant FieldsRight(fields[..k])
    {
      var e := CheckField(fields[k]);
      if e.Some? { return e; }
    }
    assert fields[..|fields|] == fields;
    return None;
  }

  /** `assertGeneratableNames` accepts a list exactly if its schema has no collision. */
  method AssertGeneratableNames(types: seq<CIType>, reserved: Reserved) returns (r: Option<NameError>)
    ensures r.None? <==> Generatable(types, reserved)
  {
    var seen := reserved;
    assert Generatable([], reserved);
    for k := 0 to |types|
      invariant Generatable(types[..k], reserved)
      invariant seen == Taken(types[..k], reserved)
    {
      var t := types[k];
      OneMoreType(types[..k], t, reserved);
      assert types[..k + 1] == types[..k] + [t] && types[..k + 1][..k] == types[..k];
      if Generatable(types, reserved) { PrefixGeneratable(types, k + 1, reserved); }
      var refused := CheckTypeName(t.name, seen);
      if refused.Some? { return refused; }
      var e := EmittedNames(t.name);
      TakenExtends(types[..k], t, reserved);
      seen := Reserved(seen.types + ToSet(LowerAll(e.types)), seen.queries + ToSet(LowerAll(e.queries)),
                       seen.mutations + ToSet(LowerAll(e.mutations)));
      var field := CheckFields(t.fields);
      if field.Some? { return field; }
    }
    assert types[..|types|] == types;
    return None;
  }

  lemma TakenExtends(types: seq<CIType>, t: CIType, reserved: Reserved)
    ensures var e, was := EmittedNames(t.name), Taken(types, reserved);
            Taken(types + [t], reserved)
            == Reserved(was.types + ToSet(LowerAll(e.types)), was.queries + ToSet(LowerAll(e.queries)),
                        was.mutations + ToSet(LowerAll(e.mutations)))
  {
    AllOfOneMore(types, t);
    SetOfConcat(AllTypes(types), LowerAll(EmittedNames(t.name).types));
    SetOfConcat(AllQueries(types), LowerAll(EmittedNames(t.name).queries));
    SetOfConcat(AllMutations(types), LowerAll(EmittedNames(t.name).mutations));
    var e := EmittedNames(t.name);
    assert reserved.types + ToSet(AllTypes(types)) + ToSet(LowerAll(e.types))
        == reserved.types + (ToSet(AllTypes(types)) + ToSet(LowerAll(e.types)));
    assert reserved.queries + ToSet(AllQueries(types)) + ToSet(LowerAll(e.queries))
        == reserved.queries + (ToSet(AllQueries(types)) + ToSet(LowerAll(e.queries)));
    assert reserved.mutations + ToSet(AllMutations(types)) + ToSet(LowerAll(e.mutations))
        == reserved.mutations + (ToSet(AllMutations(types)) + ToSet(LowerAll(e.mutations)));
  }

  lemma SetOfConcat(a: seq<string>, b: seq<string>)
    ensures ToSet(a + b) == ToSet(a) + ToSet(b)
  {
    forall x ensures x in ToSet(a + b) <==> x in ToSet(a) + ToSet(b) {
      assert x in a + b <==> x in a || x in b;
    }
  }

  // ── Fields and their properties ────────────────────────────────────────────

  /** Reads a property name back: an underscore marks a capital. */
  function CamelCase(s: string): string {
    if s == "" then ""
    else if s[0] == '_' && |s| > 1 then [ToUpper(s[1])] + CamelCase(s[2..])
    else [s[0]] + CamelCase(s[1..])
  }

  lemma {:induction false} CamelInvertsSnake(s: string)
    requires '_' !in s
    ensures CamelCase(SnakeCase(s)) == s
  {
    if s != "" {
      CamelInvertsSnake(s[1..]);
      var rest := SnakeCase(s[1..]);
      assert s[0] in s;
      if IsUpper(s[0]) {
        assert SnakeCase(s) == ['_', ToLower(s[0])] + rest;
        assert SnakeCase(s)[2..] == rest;
        assert ToUpper(ToLower(s[0])) == s[0];
      } else {
        assert SnakeCase(s) == [s[0]] + rest;
        assert SnakeCase(s)[1..] == rest;
      }
      assert s == [s[0]] + s[1..];
    }
  }

  /** Two accepted fields with different names never write the same property. */
  lemma SnakeCaseInjective(a: string, b: string)
    requires IsFieldName(a) && IsFieldName(b)
    ensures SnakeCase(a) == SnakeCase(b) <==> a == b
  {
    CamelInvertsSnake(a);
    CamelInvertsSnake(b);
  }

  // ── The fields of one type ─────────────────────────────────────────────────

  function CustomNames(fields: seq<Field>): seq<string> {
    if fields == [] then []
    else CustomNames(fields[..|fields| - 1])
         + if IsCustom(fields[|fields| - 1]) then [fields[|fields| - 1].name] else []
  }

  /** Each custom field of the list is one that could have been added after those before it. */
  predicate AddableInTurn(names: seq<string>) {
    forall k | 0 <= k < |names| :: CheckFieldName(names[k], names[..k]).None?
  }

  lemma {:induction false} CustomNamesRight(fields: seq<Field>)
    ensures forall x | x in CustomNames(fields) :: x !in BASE_FIELDS
    ensures FieldsRight(fields) <==> forall x | x in CustomNames(fields) :: IsFieldName(x) && WritesOwnProperty(x)
  {
    if fields != [] {
      var n := |fields| - 1;
      CustomNamesRight(fields[..n]);
      assert fields == fields[..n] + [fields[n]];
      assert FieldsRight(fields) <==> FieldsRight(fields[..n]) && CheckField(fields[n]).None?;
    }
  }

  /** EXACTLY. Stored fields are accepted one by one; that they could also have been added in turn, so that no two are the
      same ignoring case, takes exactly that their custom names differ ignoring case. */
  lemma FieldsAddableIff(fields: seq<Field>)
    ensures AddableInTurn(CustomNames(fields))
       <==> FieldsRight(fields) && Distinct(LowerAll(CustomNames(fields)))
  {
    CustomNamesRight(fields);
    if AddableInTurn(CustomNames(fields)) { AddableAreDistinct(CustomNames(fields)); }
    else if FieldsRight(fields) { NotAddableClash(CustomNames(fields)); }
  }

  lemma AddableAreDistinct(names: seq<string>)
    requires AddableInTurn(names)
    ensures (forall x | x in names :: IsFieldName(x) && WritesOwnProperty(x)) && Distinct(LowerAll(names))
  {
    forall x | x in names ensures IsFieldName(x) && WritesOwnProperty(x) {
      var k :| 0 <= k < |names| && names[k] == x;
      assert CheckFieldName(names[k], names[..k]).None?;
    }
    forall i, j | 0 <= i < j < |names| ensures Lower(names[i]) != Lower(names[j]) {
      assert CheckFieldName(names[j], names[..j]).None? && names[..j][i] in names[..j];
    }
  }

  lemma NotAddableClash(names: seq<string>)
    requires forall x | x in names :: IsFieldName(x) && WritesOwnProperty(x) && x !in BASE_FIELDS
    requires !AddableInTurn(names)
    ensures !Distinct(LowerAll(names))
  {
    var k :| 0 <= k < |names| && CheckFieldName(names[k], names[..k]).Some?;
    assert names[k] in names;
    var i := RefusedIsAlike(names[k], names[..k]);
    assert LowerAll(names)[i] == LowerAll(names)[k];
  }

  lemma RefusedIsAlike(name: string, existing: seq<string>) returns (i: nat)
    requires IsFieldName(name) && WritesOwnProperty(name) && name !in BASE_FIELDS
    requires CheckFieldName(name, existing).Some?
    ensures i < |existing| && Lower(existing[i]) == Lower(name)
  {
    i :| 0 <= i < |existing| && existing[i] == FirstAlike(name, existing).value;
  }

  /** Fields that could have been added in turn write different properties. */
  lemma AddableWriteDistinct(names: seq<string>, i: nat, j: nat)
    requires AddableInTurn(names) && i < j < |names|
    ensures SnakeCase(names[i]) != SnakeCase(names[j])
  {
    assert CheckFieldName(names[i], names[..i]).None? && CheckFieldName(names[j], names[..j]).None?;
    assert names[..j][i] in names[..j];
    SnakeCaseInjective(names[i], names[j]);
  }

  /** A single well-named type in an empty schema is accepted whatever its fields, as long as each is right by itself. */
  lemma SingleTypeAccepted(name: string, fields: seq<Field>)
    requires IsTypeName(name) && FieldsRight(fields)
    ensures Generatable([CIType(name, fields)], Reserved({}, {}, {}))
  {
    var t, none := CIType(name, fields), Reserved({}, {}, {});
    assert Generatable([], none);
    OneMoreType([], t, none);
    assert [] + [t] == [t];
  }

  /** So acceptance does not tell fields apart: a type with the same custom field twice is accepted. */
  lemma TwinFieldsAccepted(name: string, field: string)
    requires IsTypeName(name) && IsFieldName(field) && WritesOwnProperty(field) && field !in BASE_FIELDS
    ensures var fields := [Field(field, false), Field(field, false)];
            && Generatable([CIType(name, fields)], Reserved({}, {}, {}))
            && !Distinct(LowerAll(CustomNames(fields)))
  {
    var fields := [Field(field, false), Field(field, false)];
    SingleTypeAccepted(name, fields);
    assert fields[..1] == [Field(field, false)] && fields[..1][..0] == [];
    assert CustomNames(fields[..1]) == [field];
    assert CustomNames(fields) == [field, field];
    assert LowerAll([field, field])[0] == LowerAll([field, field])[1];
  }
}
