/**
  What the environment overlay guarantees: how variable names are built,
  what each kind of field ends up holding, and which fields a variable can
  touch.
 */
module ParserEnvFacts {
  import opened Wrappers
  import opened Protobuf
  import opened CaseConvert
  import opened ParserEnv

  // ---------------------------------------------------------------------------
  // Variable names

  /**
    A field's variable is the prefix, '_', and the field name in upper snake
    case: one character per input character, with a '_' before every
    upper-case letter after the first, and no lower-case letter after the prefix.
   */
  lemma CookEnvVarShape(prefix: string, suffix: string)
    ensures CookEnvVar(prefix, suffix) == prefix + "_" + SnakeOf(suffix, true)
    ensures |CookEnvVar(prefix, suffix)| == |prefix| + 1 + |suffix| + UppersAfterFirst(suffix)
    ensures forall i :: |prefix| < i < |CookEnvVar(prefix, suffix)| ==> !IsLower(CookEnvVar(prefix, suffix)[i])
  {
    SnakeUpperIsAllCaps(suffix);
    SnakeLength(suffix, true);
    SnakeCaseOfLetters(suffix, true);
    var r := CookEnvVar(prefix, suffix);
    forall i | |prefix| < i < |r|
      ensures !IsLower(r[i])
    {
      assert r[i] == SnakeOf(suffix, true)[i - |prefix| - 1];
    }
  }

  /** A leaf of a nested message is looked up under the outer name extended by its own. */
  lemma NestedVariable(prefix: string, outer: string, inner: string)
    ensures CookEnvVar(CookEnvVar(prefix, outer), inner)
            == prefix + "_" + SnakeOf(outer, true) + "_" + SnakeOf(inner, true)
  {
    CookEnvVarShape(prefix, outer);
    CookEnvVarShape(CookEnvVar(prefix, outer), inner);
  }

  lemma SnakeFeatureOne()
    ensures SnakeOf("FeatureOne", true) == "FEATURE_ONE"
  {
    SnakeStep("", 'F', "F", true);
    SnakeStep("F", 'e', "Fe", true);
    SnakeStep("Fe", 'a', "Fea", true);
    SnakeStep("Fea", 't', "Feat", true);
    SnakeStep("Feat", 'u', "Featu", true);
    SnakeStep("Featu", 'r', "Featur", true);
    SnakeStep("Featur", 'e', "Feature", true);
    SnakeStep("Feature", 'O', "FeatureO", true);
    SnakeStep("FeatureO", 'n', "FeatureOn", true);
    SnakeStep("FeatureOn", 'e', "FeatureOne", true);
  }

  lemma SnakeMixedCase()
    ensures SnakeOf("mixed_cAse", true) == "MIXED_C_ASE"
  {
    SnakeStep("", 'm', "m", true);
    SnakeStep("m", 'i', "mi", true);
    SnakeStep("mi", 'x', "mix", true);
    SnakeStep("mix", 'e', "mixe", true);
    SnakeStep("mixe", 'd', "mixed", true);
    SnakeStep("mixed", '_', "mixed_", true);
    SnakeStep("mixed_", 'c', "mixed_c", true);
    SnakeStep("mixed_c", 'A', "mixed_cA", true);
    SnakeStep("mixed_cA", 's', "mixed_cAs", true);
    SnakeStep("mixed_cAs", 'e', "mixed_cAse", true);
  }

  /** cook_env_var("MY_APP", "FeatureOne") is "MY_APP_FEATURE_ONE". */
  lemma CookExampleFeatureOne()
    ensures CookEnvVar("MY_APP", "FeatureOne") == "MY_APP_FEATURE_ONE"
  {
    SnakeUpperIsAllCaps("FeatureOne");
    SnakeFeatureOne();
  }

  /** cook_env_var("prefix", "some_feature") is "prefix_SOME_FEATURE": the prefix is kept as given. */
  lemma CookExampleSomeFeature()
    ensures CookEnvVar("prefix", "some_feature") == "prefix_SOME_FEATURE"
  {
    SnakeIdentity("some_feature");
    assert AllCapsOf("some_feature") == "SOME_FEATURE";
  }

  /** cook_env_var("MY_APP", "mixed_cAse") is "MY_APP_MIXED_C_ASE". */
  lemma CookExampleMixedCase()
    ensures CookEnvVar("MY_APP", "mixed_cAse") == "MY_APP_MIXED_C_ASE"
  {
    SnakeUpperIsAllCaps("mixed_cAse");
    SnakeMixedCase();
  }

  /** Element 12 of a repeated field MY_LIST is read from MY_LIST_12. */
  lemma ProbeExample()
    ensures Probe("MY_LIST", 12) == "MY_LIST_12"
  {
  }

  // ---------------------------------------------------------------------------
  // Text conversions

  /** boolalpha: "true" reads true, after any leading whitespace. */
  lemma BoolAlphaTrue()
    ensures BoolAlpha("true") && BoolAlpha(" \ttrue")
  {
    var t := "true";
    assert SkipSpace(t) == t by { assert !IsSpace(t[0]); }
    assert SkipSpace("\ttrue") == t by { assert "\ttrue"[1..] == t; }
    assert SkipSpace(" \ttrue") == t by { assert " \ttrue"[1..] == "\ttrue"; }
    assert "true" <= t;
  }

  /** boolalpha: "false", other spellings and other words read false. */
  lemma BoolAlphaFalse()
    ensures !BoolAlpha("false") && !BoolAlpha("TRUE") && !BoolAlpha("1") && !BoolAlpha("yes") && !BoolAlpha("")
  {
    assert "false"[0] == 'f' && "TRUE"[0] == 'T' && "1"[0] == '1' && "yes"[0] == 'y';
  }

  /** A uint32 field set from std::stoul keeps the low 32 bits. */
  lemma UInt32Truncates(num: NumParser, text: string, x: nat)
    requires num(Stoul, text) == Some(IntV(x))
    ensures SetterText(num, SetUInt32, text) == Some(IntV(x % 0x1_0000_0000))
    ensures x < 0x1_0000_0000 ==> SetterText(num, SetUInt32, text) == Some(IntV(x))
  {
  }

  /**
    Through the switch as written a set variable of a singular sint64 field
    always aborts; every other type reads as in the corrected switch.
   */
  lemma SInt64TextAsWritten(num: NumParser, f: Field, text: string)
    requires !f.kind.Message? && !f.kind.Bytes?
    ensures f.kind.SInt64? ==> ScalarTextAsWritten(num, f, text).None?
    ensures !f.kind.SInt64? ==> ScalarTextAsWritten(num, f, text) == ScalarText(num, f, text)
  {
    if Settable(f.kind) {
      AsWrittenSetterMismatch(f.kind);
    }
  }

  // ---------------------------------------------------------------------------
  // Field steps

  /** A singular leaf whose variable is unset keeps its value. */
  lemma UnsetKept(env: Env, num: NumParser, prefix: string, fields: Fields, f: Field)
    requires !f.repeated && !f.kind.Message? && CookEnvVar(prefix, f.name) !in env
    ensures FieldSafe(env, num, prefix, f) && EnvField(env, num, prefix, fields, f) == fields
  {
  }

  /** A string field whose variable is set takes the text verbatim. */
  lemma StringFromText(env: Env, num: NumParser, prefix: string, fields: Fields, f: Field)
    requires !f.repeated && f.kind.String? && CookEnvVar(prefix, f.name) in env
    ensures FieldSafe(env, num, prefix, f)
    ensures EnvField(env, num, prefix, fields, f) == fields[f.name := Leaf(StrV(env[CookEnvVar(prefix, f.name)]))]
  {
  }

  /** A bool field whose variable is set takes its boolalpha reading. */
  lemma BoolFromText(env: Env, num: NumParser, prefix: string, fields: Fields, f: Field)
    requires !f.repeated && f.kind.Bool? && CookEnvVar(prefix, f.name) in env
    ensures FieldSafe(env, num, prefix, f)
    ensures EnvField(env, num, prefix, fields, f)
            == fields[f.name := Leaf(BoolV(BoolAlpha(env[CookEnvVar(prefix, f.name)])))]
  {
  }

  /** An enum field whose variable is set takes the number of the value so named. */
  lemma EnumFromText(env: Env, num: NumParser, prefix: string, fields: Fields, f: Field)
    requires !f.repeated && f.kind.Enum? && CookEnvVar(prefix, f.name) in env
    requires FieldSafe(env, num, prefix, f)
    ensures var text := env[CookEnvVar(prefix, f.name)];
            exists i :: 0 <= i < |f.kind.values| && f.kind.values[i].name == text
                        && EnvField(env, num, prefix, fields, f) == fields[f.name := Leaf(IntV(f.kind.values[i].number))]
  {
    var text := env[CookEnvVar(prefix, f.name)];
    var r := FindValueByName(f.kind.values, text);
    assert r.Some?;
    var i :| 0 <= i < |f.kind.values| && f.kind.values[i].name == text && f.kind.values[i].number == r.value;
    assert EnvField(env, num, prefix, fields, f) == fields[f.name := Leaf(IntV(f.kind.values[i].number))];
  }

  /** A singular bytes field is not supported: it is left as it was. */
  lemma BytesIgnored(env: Env, num: NumParser, prefix: string, fields: Fields, f: Field)
    requires !f.repeated && f.kind.Bytes?
    ensures FieldSafe(env, num, prefix, f) && EnvField(env, num, prefix, fields, f) == fields
  {
  }

  /**
    A repeated field is cleared and refilled from NAME_0 ... NAME_{k-1},
    where NAME_k is the first unset index: what it held before plays no
    part, and it is empty when NAME_0 is unset.
   */
  lemma RepeatedFromProbes(env: Env, num: NumParser, prefix: string, fields: Fields, f: Field)
    requires f.repeated && CppTypeOf(f.kind) != CppMessage && FieldSafe(env, num, prefix, f)
    ensures var name := CookEnvVar(prefix, f.name);
            var r := EnvField(env, num, prefix, fields, f);
            && f.name in r && r[f.name].List?
            && var vs := r[f.name].items;
            && (forall j :: 0 <= j < |vs| ==>
                  Probe(name, j) in env && Some(vs[j]) == ElementText(num, f, env[Probe(name, j)]))
            && Probe(name, |vs|) !in env
            && (Probe(name, 0) !in env ==> vs == [])
            && (forall other: Fields :: EnvField(env, num, prefix, other, f)[f.name] == r[f.name])
  {
    var name := CookEnvVar(prefix, f.name);
    var k := FirstUnset(env, name);
    if Probe(name, 0) !in env {
      assert k == 0;
    }
  }

  /** A repeated message field is only logged: nothing changes. */
  lemma RepeatedMessageIgnored(env: Env, num: NumParser, prefix: string, fields: Fields, f: Field)
    requires f.repeated && f.kind.Message?
    ensures FieldSafe(env, num, prefix, f) && EnvField(env, num, prefix, fields, f) == fields
  {
  }

  // ---------------------------------------------------------------------------
  // Which fields a variable touches

  /** One field's step changes at most the slot of that field's own name. */
  lemma EnvFieldLocal(env: Env, num: NumParser, prefix: string, fields: Fields, f: Field, k: string)
    requires FieldSafe(env, num, prefix, f) && k != f.name
    ensures SameAt(EnvField(env, num, prefix, fields, f), fields, k)
  {
  }

  /** A name that no field of the schema has keeps its slot. */
  lemma {:induction false} EnvMessageKeeps(env: Env, num: NumParser, prefix: string, fields: Fields,
                                           schema: Schema, n: nat, k: string)
    requires n <= |schema.fields| && SchemaSafe(env, num, prefix, schema, n)
    requires forall i :: 0 <= i < n ==> schema.fields[i].name != k
    ensures SameAt(EnvMessage(env, num, prefix, fields, schema, n), fields, k)
  {
    if n > 0 {
      EnvMessageKeeps(env, num, prefix, fields, schema, n - 1, k);
      EnvFieldLocal(env, num, prefix, EnvMessage(env, num, prefix, fields, schema, n - 1), schema.fields[n - 1], k);
    }
  }

  /**
    With unique field names, field i's slot after the walk is what field i's
    own step made of it; the fields before and after it do not touch it.
   */
  lemma {:induction false} EnvMessageAt(env: Env, num: NumParser, prefix: string, fields: Fields,
                                        schema: Schema, n: nat, i: nat)
    requires UniqueNames(schema) && i < n <= |schema.fields| && SchemaSafe(env, num, prefix, schema, n)
    ensures SchemaSafe(env, num, prefix, schema, i) && FieldSafe(env, num, prefix, schema.fields[i])
    ensures var before := EnvMessage(env, num, prefix, fields, schema, i);
            SameAt(EnvMessage(env, num, prefix, fields, schema, n),
                   EnvField(env, num, prefix, before, schema.fields[i]), schema.fields[i].name)
  {
    SchemaSafePrefix(env, num, prefix, schema, n, i + 1);
    if n > i + 1 {
      EnvMessageAt(env, num, prefix, fields, schema, n - 1, i);
      EnvFieldLocal(env, num, prefix, EnvMessage(env, num, prefix, fields, schema, n - 1),
                    schema.fields[n - 1], schema.fields[i].name);
    }
  }

  /**
    The environment wins: a singular leaf (not bytes) whose variable is set
    ends up holding the variable's value, whatever the message held before.
   */
  lemma EnvWins(env: Env, num: NumParser, prefix: string, fields: Fields, schema: Schema, i: nat)
    requires UniqueNames(schema) && i < |schema.fields|
    requires SchemaSafe(env, num, prefix, schema, |schema.fields|)
    requires var f := schema.fields[i];
             !f.repeated && !f.kind.Message? && !f.kind.Bytes? && CookEnvVar(prefix, f.name) in env
    ensures var f := schema.fields[i];
            var r := EnvMessage(env, num, prefix, fields, schema, |schema.fields|);
            FieldSafe(env, num, prefix, f) && ScalarText(num, f, env[CookEnvVar(prefix, f.name)]).Some?
            && f.name in r && r[f.name] == Leaf(ScalarText(num, f, env[CookEnvVar(prefix, f.name)]).value)
  {
    EnvMessageAt(env, num, prefix, fields, schema, |schema.fields|, i);
  }

  /** A singular leaf whose variable is unset keeps whatever the message held. */
  lemma UnsetLeafKept(env: Env, num: NumParser, prefix: string, fields: Fields, schema: Schema, i: nat)
    requires UniqueNames(schema) && i < |schema.fields|
    requires SchemaSafe(env, num, prefix, schema, |schema.fields|)
    requires var f := schema.fields[i];
             !f.repeated && !f.kind.Message? && CookEnvVar(prefix, f.name) !in env
    ensures SameAt(EnvMessage(env, num, prefix, fields, schema, |schema.fields|), fields, schema.fields[i].name)
  {
    var f := schema.fields[i];
    EnvMessageAt(env, num, prefix, fields, schema, |schema.fields|, i);
    EnvMessageKeeps(env, num, prefix, fields, schema, i, f.name);
  }

  // ---------------------------------------------------------------------------
  // Reading the same environment again

  /**
    A field's step on a message that already holds, in that field's slot,
    what the step made of it elsewhere leaves the slot as it is.
   */
  lemma {:induction false} EnvFieldStable(env: Env, num: NumParser, prefix: string, a: Fields, b: Fields, f: Field)
    requires FieldSafe(env, num, prefix, f) && (f.kind.Message? ==> UniqueNames(f.kind.schema))
    requires SameAt(a, EnvField(env, num, prefix, b, f), f.name)
    ensures SameAt(EnvField(env, num, prefix, a, f), EnvField(env, num, prefix, b, f), f.name)
    decreases f, 0
  {
    if !f.repeated && f.kind.Message? {
      var name := CookEnvVar(prefix, f.name);
      var c := EnvMessage(env, num, name, ChildFields(b, f.name), f.kind.schema, |f.kind.schema.fields|);
      assert ChildFields(a, f.name) == c;
      EnvMessageIdempotent(env, num, name, ChildFields(b, f.name), f.kind.schema, |f.kind.schema.fields|);
    }
  }

  /** Reading the environment over the message it has just produced changes nothing. */
  lemma {:induction false} EnvMessageIdempotent(env: Env, num: NumParser, prefix: string, fields: Fields,
                                                schema: Schema, n: nat)
    requires UniqueNames(schema) && n <= |schema.fields| && SchemaSafe(env, num, prefix, schema, n)
    ensures var once := EnvMessage(env, num, prefix, fields, schema, n);
            EnvMessage(env, num, prefix, once, schema, n) == once
    decreases schema, 1
  {
    var once := EnvMessage(env, num, prefix, fields, schema, n);
    var twice := EnvMessage(env, num, prefix, once, schema, n);
    forall k
      ensures SameAt(twice, once, k)
    {
      if i :| 0 <= i < n && schema.fields[i].name == k {
        EnvMessageAt(env, num, prefix, fields, schema, n, i);
        EnvMessageAt(env, num, prefix, once, schema, n, i);
        EnvMessageKeeps(env, num, prefix, once, schema, i, k);
        EnvFieldStable(env, num, prefix, EnvMessage(env, num, prefix, once, schema, i),
                       EnvMessage(env, num, prefix, fields, schema, i), schema.fields[i]);
      } else {
        EnvMessageKeeps(env, num, prefix, once, schema, n, k);
      }
    }
    SameEverywhere(twice, once);
  }
}
