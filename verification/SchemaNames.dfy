/** The names a generated schema declares (packages/schema-generator/src/generator.ts:480-628), read off the generator's own
    loops, and what the check of `MetamodelNames` is worth for them.
 */
module SchemaNames {
  import opened Basics
  import opened Wrappers
  import opened MetamodelNames

  /** The declarations of a schema, in the order they are written. */
  datatype Schema = Schema(objects: seq<string>, queries: seq<string>, mutations: seq<string>, inputs: seq<string>)

  predicate DistinctIgnoringCase(names: seq<string>) { Distinct(LowerAll(names)) }

  lemma LowerAllConcat(a: seq<string>, b: seq<string>)
    ensures LowerAll(a + b) == LowerAll(a) + LowerAll(b)
  {}

  /** Objects and inputs share one space of names; they are written apart. */
  lemma Regrouped(a: seq<string>, more: seq<string>, b: seq<string>, last: seq<string>)
    ensures multiset(LowerAll((a + more) + (b + last)))
         == multiset(LowerAll(a + b)) + multiset(LowerAll(more + last))
  {
    LowerAllConcat(a + more, b + last);
    LowerAllConcat(a, more);
    LowerAllConcat(b, last);
    LowerAllConcat(a, b);
    LowerAllConcat(more, last);
  }

  lemma DistinctIffSingle(s: seq<string>)
    ensures Distinct(s) <==> forall x :: multiset(s)[x] <= 1
  {
    if Distinct(s) {
      forall x ensures multiset(s)[x] <= 1 { DistinctIsSingle(s, x); }
    } else {
      var i, j :| 0 <= i < j < |s| && s[i] == s[j];
      assert s == s[..j] + ([s[j]] + s[j + 1..]);
      assert s[..j][i] == s[j] && multiset(s[..j])[s[j]] >= 1 && multiset([s[j]] + s[j + 1..])[s[j]] >= 1;
      assert multiset(s)[s[j]] >= 2;
    }
  }

  lemma {:induction false} DistinctIsSingle(s: seq<string>, x: string)
    requires Distinct(s)
    ensures multiset(s)[x] <= 1
  {
    if s != [] {
      var n := |s| - 1;
      assert s == s[..n] + [s[n]];
      DistinctIsSingle(s[..n], x);
      if s[n] == x { assert x !in s[..n]; }
    }
  }

  /** The object types of a list of types: the type and its page of results. */
  function Objects(types: seq<CIType>): seq<string> {
    if types == [] then [] else
      var p := PascalCase(types[|types| - 1].name);
      Objects(types[..|types| - 1]) + [p, p + "sResult"]
  }

  /** What a schema declares for the types, none left out and nothing besides, name by name. */
  ghost predicate Declares(s: Schema, types: seq<CIType>) {
    && multiset(LowerAll(s.objects + s.inputs)) == multiset(AllTypes(types))
    && LowerAll(s.queries) == AllQueries(types)
    && LowerAll(s.mutations) == AllMutations(types)
  }

  /** THE CHECK IS WORTH IT. A schema is generated exactly for the lists without a collision; it declares exactly the names
      the check looked at, and no two of one kind are the same ignoring case. */
  method GenerateSDL(types: seq<CIType>, reserved: Reserved) returns (r: Result<Schema, NameError>)
    ensures r.Ok? <==> Generatable(types, reserved)
    ensures r.Ok? ==>
              && Declares(r.value, types)
              && DistinctIgnoringCase(r.value.objects + r.value.inputs)
              && DistinctIgnoringCase(r.value.queries) && DistinctIgnoringCase(r.value.mutations)
  {
    var refused := AssertGeneratableNames(types, reserved);
    if refused.Some? { return Err(refused.value); }
    var objects := WriteObjects(types);
    var queries := WriteQueries(types);
    var mutations, inputs := WriteMutations(types, objects);
    DistinctIffSingle(AllTypes(types));
    DistinctIffSingle(LowerAll(objects + inputs));
    return Ok(Schema(objects, queries, mutations, inputs));
  }

  method WriteObjects(types: seq<CIType>) returns (objects: seq<string>)
    ensures objects == Objects(types)
  {
    objects := [];
    for k := 0 to |types|
      invariant objects == Objects(types[..k])
    {
      assert types[..k + 1][..k] == types[..k];
      var typeName := PascalCase(types[k].name);
      objects := objects + [typeName, typeName + "sResult"];
    }
    assert types[..|types|] == types;
  }

  method WriteQueries(types: seq<CIType>) returns (queries: seq<string>)
    ensures LowerAll(queries) == AllQueries(types)
  {
    queries := [];
    for k := 0 to |types|
      invariant LowerAll(queries) == AllQueries(types[..k])
    {
      assert types[..k + 1][..k] == types[..k];
      var pluralKey := LowerFirst(Pluralize(PascalCase(types[k].name)));
      LowerAllConcat(queries, [pluralKey, types[k].name]);
      queries := queries + [pluralKey, types[k].name];
    }
    assert types[..|types|] == types;
  }

  method WriteMutations(types: seq<CIType>, objects: seq<string>) returns (mutations: seq<string>, inputs: seq<string>)
    requires objects == Objects(types)
    ensures LowerAll(mutations) == AllMutations(types)
    ensures multiset(LowerAll(objects + inputs)) == multiset(AllTypes(types))
  {
    mutations, inputs := [], [];
    for k := 0 to |types|
      invariant LowerAll(mutations) == AllMutations(types[..k])
      invariant multiset(LowerAll(Objects(types[..k]) + inputs)) == multiset(AllTypes(types[..k]))
    {
      assert types[..k + 1][..k] == types[..k];
      var typeName := PascalCase(types[k].name);
      LowerAllConcat(mutations, ["create" + typeName, "update" + typeName, "delete" + typeName]);
      mutations := mutations + ["create" + typeName, "update" + typeName, "delete" + typeName];
      OneTypeRegrouped(Objects(types[..k]), inputs, typeName, EmittedNames(types[k].name).types);
      inputs := inputs + ["Create" + typeName + "Input", "Update" + typeName + "Input"];
    }
    assert types[..|types|] == types;
  }

  lemma OneTypeRegrouped(objects: seq<string>, inputs: seq<string>, p: string, emitted: seq<string>)
    requires emitted == [p, p + "sResult", "Create" + p + "Input", "Update" + p + "Input"]
    ensures multiset(LowerAll((objects + [p, p + "sResult"]) + (inputs + ["Create" + p + "Input", "Update" + p + "Input"])))
         == multiset(LowerAll(objects + inputs)) + multiset(LowerAll(emitted))
  {
    var more, last := [p, p + "sResult"], ["Create" + p + "Input", "Update" + p + "Input"];
    assert more + last == emitted;
    Regrouped(objects, more, inputs, last);
  }

  // ── The names, letter by letter ────────────────────────────────────────────

  /** Pascal case, word by word: each begins with a capital and is otherwise as it was. */
  lemma {:induction false} PascalByWords(word: string, rest: string)
    requires '_' !in word
    ensures PascalCase(word) == if word == "" then "" else [ToUpper(word[0])] + word[1..]
    ensures PascalCase(word + "_" + rest) == PascalCase(word) + PascalCase(rest)
  {
    OneWord(word);
    FirstWord(word, rest);
    var ws := Words(rest);
    assert ([word] + ws)[1..] == ws && [word][1..] == [];
    assert JoinCapitalized([word]) == Capitalized(word) + JoinCapitalized([]);
  }

  lemma {:induction false} OneWord(word: string)
    requires '_' !in word
    ensures Words(word) == [word]
  {
    if word != "" {
      OneWord(word[1..]);
      assert [word[0]] + word[1..] == word && [word[1..]][1..] == [];
    }
  }

  lemma {:induction false} FirstWord(word: string, rest: string)
    requires '_' !in word
    ensures Words(word + "_" + rest) == [word] + Words(rest)
  {
    var s := word + "_" + rest;
    if word == "" {
      assert s == "_" + rest && s[1..] == rest;
    } else {
      assert s[1..] == word[1..] + "_" + rest;
      FirstWord(word[1..], rest);
      assert [word[0]] + word[1..] == word && ([word[1..]] + Words(rest))[1..] == Words(rest);
    }
  }

  /** A plural ends in `ses` after an s, in `ies` for a y, and in s otherwise. */
  lemma Plurals(stem: string, c: char)
    ensures Pluralize(stem + [c]) == if c == 's' then stem + "ses" else if c == 'y' then stem + "ies" else stem + [c, 's']
  {
    var s := stem + [c];
    assert s[|s| - 1] == c && s[..|s| - 1] == stem;
    assert stem + "ses" == stem + "s" + "es" && stem + [c, 's'] == stem + [c] + "s";
  }
}
