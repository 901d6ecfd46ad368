/**
  Properties of ConfigMuch::Parser: which file wins, that the environment
  wins over every file, and which fields this parser never writes.
 */
module ConfigMuchFacts {
  import opened Wrappers
  import opened Protobuf
  import opened YamlTree
  import ParserEnv
  import opened ConfigMuch

  // ---------------------------------------------------------------------------
  // One document

  lemma YamlFieldLocal(conv: Converter, fields: Fields, node: Node, f: Field, k: string)
    requires YamlFieldSafe(conv, node, f) && (k != f.name || Lookup(node, f.name).None?)
    ensures SameAt(YamlField(conv, fields, node, f), fields, k)
  {
  }

  /** A name that the document does not mention, or that no field has, keeps its slot. */
  lemma {:induction false} YamlMessageKeeps(conv: Converter, fields: Fields, node: Node, schema: Schema, n: nat, k: string)
    requires n <= |schema.fields| && YamlSchemaSafe(conv, node, schema, n)
    requires Lookup(node, k).None? || forall i :: 0 <= i < n ==> schema.fields[i].name != k
    ensures SameAt(YamlMessage(conv, fields, node, schema, n), fields, k)
  {
    if n > 0 {
      YamlMessageKeeps(conv, fields, node, schema, n - 1, k);
      YamlFieldLocal(conv, YamlMessage(conv, fields, node, schema, n - 1), node, schema.fields[n - 1], k);
    }
  }

  /** With unique names, field i's slot after the walk is what its own step made of it. */
  lemma {:induction false} YamlMessageAt(conv: Converter, fields: Fields, node: Node, schema: Schema, n: nat, i: nat)
    requires UniqueNames(schema) && i < n <= |schema.fields| && YamlSchemaSafe(conv, node, schema, n)
    ensures YamlSchemaSafe(conv, node, schema, i) && YamlFieldSafe(conv, node, schema.fields[i])
    ensures SameAt(YamlMessage(conv, fields, node, schema, n),
                   YamlField(conv, YamlMessage(conv, fields, node, schema, i), node, schema.fields[i]),
                   schema.fields[i].name)
  {
    YamlSchemaSafePrefix(conv, node, schema, n, i + 1);
    if n > i + 1 {
      YamlMessageAt(conv, fields, node, schema, n - 1, i);
      YamlFieldLocal(conv, YamlMessage(conv, fields, node, schema, n - 1), node,
                     schema.fields[n - 1], schema.fields[i].name);
    }
  }

  /** The step of field i starts from the slot field i had before the walk. */
  lemma {:induction false} YamlMessageBefore(conv: Converter, fields: Fields, node: Node, schema: Schema, i: nat)
    requires UniqueNames(schema) && i < |schema.fields| && YamlSchemaSafe(conv, node, schema, i)
    ensures SameAt(YamlMessage(conv, fields, node, schema, i), fields, schema.fields[i].name)
  {
    YamlMessageKeeps(conv, fields, node, schema, i, schema.fields[i].name);
  }

  /**
    A singular settable field given a scalar holds its converted value after
    the document, whatever it held before.
   */
  lemma YamlScalarSet(conv: Converter, fields: Fields, node: Node, schema: Schema, i: nat)
    requires UniqueNames(schema) && i < |schema.fields|
    requires YamlSchemaSafe(conv, node, schema, |schema.fields|)
    requires var f := schema.fields[i];
             !f.repeated && Settable(f.kind) && Lookup(node, f.name).Some? && Lookup(node, f.name).value.Scalar?
    ensures var f := schema.fields[i];
            var after := YamlMessage(conv, fields, node, schema, |schema.fields|);
            && conv(TargetOf(SwitchSetter(f.kind)), Lookup(node, f.name).value).Converted?
            && f.name in after
            && after[f.name] == Leaf(conv(TargetOf(SwitchSetter(f.kind)), Lookup(node, f.name).value).value)
  {
    YamlMessageAt(conv, fields, node, schema, |schema.fields|, i);
  }

  /**
    A repeated field of a listed type is cleared and refilled from the
    document: a sequence's elements in order, and nothing for a scalar, a
    null or an empty mapping; what it held before does not matter.
   */
  lemma YamlRepeatedRefilled(conv: Converter, fields: Fields, node: Node, schema: Schema, i: nat)
    requires UniqueNames(schema) && i < |schema.fields|
    requires YamlSchemaSafe(conv, node, schema, |schema.fields|)
    requires var f := schema.fields[i];
             f.repeated && ListType(f.kind) && Lookup(node, f.name).Some?
    ensures var f := schema.fields[i];
            var v := Lookup(node, f.name).value;
            var after := YamlMessage(conv, fields, node, schema, |schema.fields|);
            && AllConvert(conv, ElementTarget(CppTypeOf(f.kind)), Iterated(v))
            && f.name in after && after[f.name].List?
            && (v.Sequence? ==>
                  after[f.name].items == ConvertAll(conv, ElementTarget(CppTypeOf(f.kind)), v.items))
            && (!v.Sequence? ==> after[f.name].items == [])
  {
    YamlMessageAt(conv, fields, node, schema, |schema.fields|, i);
  }

  /**
    A document that is null or a sequence mentions no field: nothing changes.
    A scalar is subscripted only when there are no fields to look up, since
    `node[name]` on a scalar throws.
   */
  lemma {:induction false} YamlNoMapping(conv: Converter, fields: Fields, node: Node, schema: Schema, n: nat)
    requires n <= |schema.fields| && YamlSchemaSafe(conv, node, schema, n) && !node.Map?
    requires node.Scalar? ==> schema.fields == []
    ensures YamlMessage(conv, fields, node, schema, n) == fields
  {
    if n > 0 {
      YamlNoMapping(conv, fields, node, schema, n - 1);
    }
  }

  /**
    A singular message field the document mentions is marked present, even
    when its node is null or a sequence: MutableMessage runs before the
    sub-fields are looked up.
   */
  lemma YamlMessagePresent(conv: Converter, fields: Fields, node: Node, schema: Schema, i: nat)
    requires UniqueNames(schema) && i < |schema.fields|
    requires YamlSchemaSafe(conv, node, schema, |schema.fields|)
    requires var f := schema.fields[i];
             !f.repeated && f.kind.Message? && Lookup(node, f.name).Some? && !Lookup(node, f.name).value.Map?
    ensures var f := schema.fields[i];
            var after := YamlMessage(conv, fields, node, schema, |schema.fields|);
            f.name in after && after[f.name] == Nested(ChildFields(fields, f.name))
  {
    var f := schema.fields[i];
    YamlMessageAt(conv, fields, node, schema, |schema.fields|, i);
    YamlMessageBefore(conv, fields, node, schema, i);
    var before := YamlMessage(conv, fields, node, schema, i);
    assert ChildFields(before, f.name) == ChildFields(fields, f.name);
    YamlNoMapping(conv, ChildFields(before, f.name), Lookup(node, f.name).value,
                  f.kind.schema, |f.kind.schema.fields|);
  }

  /** Enums, scalar or repeated, and singular bytes are never written by a document. */
  lemma YamlInert(conv: Converter, fields: Fields, node: Node, schema: Schema, i: nat)
    requires UniqueNames(schema) && i < |schema.fields|
    requires YamlSchemaSafe(conv, node, schema, |schema.fields|)
    requires var f := schema.fields[i];
             f.kind.Enum? || (f.kind.Bytes? && !f.repeated)
    ensures SameAt(YamlMessage(conv, fields, node, schema, |schema.fields|), fields, schema.fields[i].name)
  {
    YamlMessageAt(conv, fields, node, schema, |schema.fields|, i);
    YamlMessageBefore(conv, fields, node, schema, i);
  }

  // ---------------------------------------------------------------------------
  // The files in order

  /** Applying a + b is applying a, then b. */
  lemma {:induction false} ApplyFilesAppend(conv: Converter, docs: map<string, Node>, a: seq<string>, b: seq<string>,
                                            fields: Fields, schema: Schema)
    requires FilesSafe(conv, docs, a + b, schema)
    ensures FilesSafe(conv, docs, a, schema) && FilesSafe(conv, docs, b, schema)
    ensures ApplyFiles(conv, docs, a + b, fields, schema)
            == ApplyFiles(conv, docs, b, ApplyFiles(conv, docs, a, fields, schema), schema)
    decreases |b|
  {
    assert forall i :: 0 <= i < |a| ==> (a + b)[i] == a[i];
    assert forall i :: 0 <= i < |b| ==> (a + b)[|a| + i] == b[i];
    if b == [] {
      assert a + b == a;
    } else {
      var c := b[..|b| - 1];
      assert (a + b)[..|a + b| - 1] == a + c;
      ApplyFilesAppend(conv, docs, a, c, fields, schema);
    }
  }

  /** Files that do not mention a name leave its slot alone. */
  lemma {:induction false} FilesKeep(conv: Converter, docs: map<string, Node>, files: seq<string>,
                                     fields: Fields, schema: Schema, k: string)
    requires FilesSafe(conv, docs, files, schema)
    requires forall j :: 0 <= j < |files| ==> Lookup(docs[files[j]], k).None?
    ensures SameAt(ApplyFiles(conv, docs, files, fields, schema), fields, k)
    decreases |files|
  {
    if files != [] {
      var rest := files[..|files| - 1];
      assert forall j :: 0 <= j < |rest| ==> rest[j] == files[j];
      FilesKeep(conv, docs, rest, fields, schema, k);
      YamlMessageKeeps(conv, ApplyFiles(conv, docs, rest, fields, schema), docs[files[|files| - 1]],
                       schema, |schema.fields|, k);
    }
  }

  /**
    The last file that mentions a singular settable field decides its value:
    if file j gives it a scalar and no later file mentions it, it holds that
    scalar's conversion after all files.
   */
  lemma LastFileWins(conv: Converter, docs: map<string, Node>, files: seq<string>, fields: Fields,
                     schema: Schema, i: nat, j: nat)
    requires UniqueNames(schema) && i < |schema.fields| && j < |files|
    requires FilesSafe(conv, docs, files, schema)
    requires var f := schema.fields[i];
             && !f.repeated && Settable(f.kind)
             && Lookup(docs[files[j]], f.name).Some? && Lookup(docs[files[j]], f.name).value.Scalar?
             && forall j' :: j < j' < |files| ==> Lookup(docs[files[j']], f.name).None?
    ensures var f := schema.fields[i];
            var after := ApplyFiles(conv, docs, files, fields, schema);
            && conv(TargetOf(SwitchSetter(f.kind)), Lookup(docs[files[j]], f.name).value).Converted?
            && f.name in after
            && after[f.name] == Leaf(conv(TargetOf(SwitchSetter(f.kind)), Lookup(docs[files[j]], f.name).value).value)
  {
    var f := schema.fields[i];
    var a, b := files[..j + 1], files[j + 1..];
    assert a + b == files;
    ApplyFilesAppend(conv, docs, a, b, fields, schema);
    assert forall j' :: 0 <= j' < |b| ==> b[j'] == files[j + 1 + j'];
    var mid := ApplyFiles(conv, docs, a, fields, schema);
    FilesKeep(conv, docs, b, mid, schema, f.name);
    var before := ApplyFilesLast(conv, docs, files, fields, schema, j);
    YamlScalarSet(conv, before, docs[files[j]], schema, i);
  }

  /** The files up to j are the files before j, then file j; the result is the state before file j. */
  lemma ApplyFilesLast(conv: Converter, docs: map<string, Node>, files: seq<string>, fields: Fields,
                       schema: Schema, j: nat) returns (before: Fields)
    requires j < |files| && FilesSafe(conv, docs, files, schema)
    ensures FilesSafe(conv, docs, files[..j + 1], schema) && files[j] in docs
    ensures YamlSchemaSafe(conv, docs[files[j]], schema, |schema.fields|)
    ensures FilesSafe(conv, docs, files[..j], schema)
    ensures before == ApplyFiles(conv, docs, files[..j], fields, schema)
    ensures ApplyFiles(conv, docs, files[..j + 1], fields, schema)
            == YamlMessage(conv, before, docs[files[j]], schema, |schema.fields|)
  {
    assert forall j' :: 0 <= j' <= j ==> files[..j + 1][j'] == files[j'];
    assert forall j' :: 0 <= j' < j ==> files[..j][j'] == files[j'];
    assert files[..j + 1][..j] == files[..j];
    before := ApplyFiles(conv, docs, files[..j], fields, schema);
  }

  /** No file writes an enum or a singular bytes field. */
  lemma {:induction false} FilesInert(conv: Converter, docs: map<string, Node>, files: seq<string>,
                                      fields: Fields, schema: Schema, i: nat)
    requires UniqueNames(schema) && i < |schema.fields|
    requires FilesSafe(conv, docs, files, schema)
    requires var f := schema.fields[i];
             f.kind.Enum? || (f.kind.Bytes? && !f.repeated)
    ensures SameAt(ApplyFiles(conv, docs, files, fields, schema), fields, schema.fields[i].name)
    decreases |files|
  {
    if files != [] {
      var rest := files[..|files| - 1];
      assert forall j :: 0 <= j < |rest| ==> rest[j] == files[j];
      FilesInert(conv, docs, rest, fields, schema, i);
      YamlInert(conv, ApplyFiles(conv, docs, rest, fields, schema), docs[files[|files| - 1]], schema, i);
    }
  }

  // ---------------------------------------------------------------------------
  // The environment

  lemma EnvFieldLocal(env: ParserEnv.Env, num: ParserEnv.NumParser, prefix: string, fields: Fields, f: Field, k: string)
    requires EnvFieldSafe(env, num, prefix, f) && k != f.name
    ensures SameAt(EnvField(env, num, prefix, fields, f), fields, k)
  {
  }

  lemma {:induction false} EnvMessageKeeps(env: ParserEnv.Env, num: ParserEnv.NumParser, prefix: string,
                                           fields: Fields, schema: Schema, n: nat, k: string)
    requires n <= |schema.fields| && EnvSchemaSafe(env, num, prefix, schema, n)
    requires forall i :: 0 <= i < n ==> schema.fields[i].name != k
    ensures SameAt(EnvMessage(env, num, prefix, fields, schema, n), fields, k)
  {
    if n > 0 {
      EnvMessageKeeps(env, num, prefix, fields, schema, n - 1, k);
      EnvFieldLocal(env, num, prefix, EnvMessage(env, num, prefix, fields, schema, n - 1), schema.fields[n - 1], k);
    }
  }

  lemma {:induction false} EnvMessageAt(env: ParserEnv.Env, num: ParserEnv.NumParser, prefix: string,
                                        fields: Fields, schema: Schema, n: nat, i: nat)
    requires UniqueNames(schema) && i < n <= |schema.fields| && EnvSchemaSafe(env, num, prefix, schema, n)
    ensures EnvSchemaSafe(env, num, prefix, schema, i) && EnvFieldSafe(env, num, prefix, schema.fields[i])
    ensures SameAt(EnvMessage(env, num, prefix, fields, schema, n),
                   EnvField(env, num, prefix, EnvMessage(env, num, prefix, fields, schema, i), schema.fields[i]),
                   schema.fields[i].name)
  {
    EnvSchemaSafePrefix(env, num, prefix, schema, n, i + 1);
    if n > i + 1 {
      EnvMessageAt(env, num, prefix, fields, schema, n - 1, i);
      EnvFieldLocal(env, num, prefix, EnvMessage(env, num, prefix, fields, schema, n - 1),
                    schema.fields[n - 1], schema.fields[i].name);
    }
  }

  /**
    The environment wins over every file: a set variable gives a singular
    settable field its parsed text, whatever the files said.
   */
  lemma EnvOverridesFiles(conv: Converter, docs: map<string, Node>, files: seq<string>,
                          env: ParserEnv.Env, num: ParserEnv.NumParser, prefix: string,
                          fields: Fields, schema: Schema, i: nat)
    requires UniqueNames(schema) && i < |schema.fields|
    requires FilesSafe(conv, docs, files, schema) && EnvSchemaSafe(env, num, prefix, schema, |schema.fields|)
    requires var f := schema.fields[i];
             !f.repeated && Settable(f.kind) && ParserEnv.CookEnvVar(prefix, f.name) in env
    ensures var f := schema.fields[i];
            var after := ParseResult(conv, docs, files, env, num, prefix, fields, schema);
            var text := env[ParserEnv.CookEnvVar(prefix, f.name)];
            && ParserEnv.SetterText(num, SwitchSetter(f.kind), text).Some?
            && f.name in after
            && after[f.name] == Leaf(ParserEnv.SetterText(num, SwitchSetter(f.kind), text).value)
  {
    EnvMessageAt(env, num, prefix, ApplyFiles(conv, docs, files, fields, schema), schema, |schema.fields|, i);
  }

  /** A field whose variable is unset (and is not a message) keeps what the files left in it. */
  lemma EnvUnsetKeepsFiles(conv: Converter, docs: map<string, Node>, files: seq<string>,
                           env: ParserEnv.Env, num: ParserEnv.NumParser, prefix: string,
                           fields: Fields, schema: Schema, i: nat)
    requires UniqueNames(schema) && i < |schema.fields|
    requires FilesSafe(conv, docs, files, schema) && EnvSchemaSafe(env, num, prefix, schema, |schema.fields|)
    requires var f := schema.fields[i];
             !f.kind.Message? && ParserEnv.CookEnvVar(prefix, f.name) !in env
    ensures SameAt(ParseResult(conv, docs, files, env, num, prefix, fields, schema),
                   ApplyFiles(conv, docs, files, fields, schema), schema.fields[i].name)
  {
    var mid := ApplyFiles(conv, docs, files, fields, schema);
    EnvMessageAt(env, num, prefix, mid, schema, |schema.fields|, i);
    EnvMessageKeeps(env, num, prefix, mid, schema, i, schema.fields[i].name);
  }

  /**
    Parser::parse never writes an enum field, scalar or repeated, nor a
    singular bytes field: both walks only log them.
   */
  lemma ParseInert(conv: Converter, docs: map<string, Node>, files: seq<string>,
                   env: ParserEnv.Env, num: ParserEnv.NumParser, prefix: string,
                   fields: Fields, schema: Schema, i: nat)
    requires UniqueNames(schema) && i < |schema.fields|
    requires FilesSafe(conv, docs, files, schema) && EnvSchemaSafe(env, num, prefix, schema, |schema.fields|)
    requires var f := schema.fields[i];
             f.kind.Enum? || (f.kind.Bytes? && !f.repeated)
    ensures SameAt(ParseResult(conv, docs, files, env, num, prefix, fields, schema), fields, schema.fields[i].name)
  {
    var mid := ApplyFiles(conv, docs, files, fields, schema);
    FilesInert(conv, docs, files, fields, schema, i);
    EnvMessageAt(env, num, prefix, mid, schema, |schema.fields|, i);
    EnvMessageKeeps(env, num, prefix, mid, schema, i, schema.fields[i].name);
  }

  /**
    Repeated bytes are not among them: their C++ type is string, so
    parse_array fills them like strings.
   */
  lemma RepeatedBytesParsed(k: Kind)
    requires k.Bytes?
    ensures ListType(k) && ElementTarget(CppTypeOf(k)) == AsString
  {
  }

  /** With no files and no variables set for any field, a message without message fields is left as it was. */
  lemma {:induction false} NothingToDo(env: ParserEnv.Env, num: ParserEnv.NumParser, prefix: string,
                                       fields: Fields, schema: Schema, n: nat)
    requires n <= |schema.fields| && EnvSchemaSafe(env, num, prefix, schema, n)
    requires forall i :: 0 <= i < n ==>
               !schema.fields[i].kind.Message? && ParserEnv.CookEnvVar(prefix, schema.fields[i].name) !in env
    ensures EnvMessage(env, num, prefix, fields, schema, n) == fields
  {
    if n > 0 {
      NothingToDo(env, num, prefix, fields, schema, n - 1);
    }
  }

  // ---------------------------------------------------------------------------
  // Loading the same configuration again

  /**
    A field's YAML step on a message that already holds, in that field's
    slot, what the step made of it elsewhere leaves the slot as it is.
   */
  lemma {:induction false} YamlFieldStable(conv: Converter, a: Fields, b: Fields, node: Node, f: Field)
    requires YamlFieldSafe(conv, node, f) && (f.kind.Message? ==> UniqueNames(f.kind.schema))
    requires SameAt(a, YamlField(conv, b, node, f), f.name)
    ensures SameAt(YamlField(conv, a, node, f), YamlField(conv, b, node, f), f.name)
    decreases f, 0
  {
    match Lookup(node, f.name)
    case None =>
    case Some(v) =>
      if !f.repeated && f.kind.Message? {
        var c := YamlMessage(conv, ChildFields(b, f.name), v, f.kind.schema, |f.kind.schema.fields|);
        assert ChildFields(a, f.name) == c;
        YamlMessageIdempotent(conv, ChildFields(b, f.name), v, f.kind.schema, |f.kind.schema.fields|);
      }
  }

  /** Walking a document over the message it has just produced changes nothing. */
  lemma {:induction false} YamlMessageIdempotent(conv: Converter, fields: Fields, node: Node, schema: Schema, n: nat)
    requires UniqueNames(schema) && n <= |schema.fields| && YamlSchemaSafe(conv, node, schema, n)
    ensures var once := YamlMessage(conv, fields, node, schema, n);
            YamlMessage(conv, once, node, schema, n) == once
    decreases schema, 1
  {
    var once := YamlMessage(conv, fields, node, schema, n);
    var twice := YamlMessage(conv, once, node, schema, n);
    forall k
      ensures SameAt(twice, once, k)
    {
      if i :| 0 <= i < n && schema.fields[i].name == k {
        YamlMessageAt(conv, fields, node, schema, n, i);
        YamlMessageAt(conv, once, node, schema, n, i);
        YamlMessageKeeps(conv, once, node, schema, i, k);
        YamlFieldStable(conv, YamlMessage(conv, once, node, schema, i), YamlMessage(conv, fields, node, schema, i),
                        node, schema.fields[i]);
      } else {
        YamlMessageKeeps(conv, once, node, schema, n, k);
      }
    }
    SameEverywhere(twice, once);
  }

  /**
    A field's environment step on a message that already holds, in that
    field's slot, what the step made of it elsewhere leaves the slot as it is.
   */
  lemma {:induction false} EnvFieldStable(env: ParserEnv.Env, num: ParserEnv.NumParser, prefix: string,
                                          a: Fields, b: Fields, f: Field)
    requires EnvFieldSafe(env, num, prefix, f) && (f.kind.Message? ==> UniqueNames(f.kind.schema))
    requires SameAt(a, EnvField(env, num, prefix, b, f), f.name)
    ensures SameAt(EnvField(env, num, prefix, a, f), EnvField(env, num, prefix, b, f), f.name)
    decreases f, 0
  {
    if f.kind.Message? {
      var name := ParserEnv.CookEnvVar(prefix, f.name);
      var c := EnvMessage(env, num, name, ChildFields(b, f.name), f.kind.schema, |f.kind.schema.fields|);
      assert ChildFields(a, f.name) == c;
      EnvMessageIdempotent(env, num, name, ChildFields(b, f.name), f.kind.schema, |f.kind.schema.fields|);
    }
  }

  /** Reading the environment over the message it has just produced changes nothing. */
  lemma {:induction false} EnvMessageIdempotent(env: ParserEnv.Env, num: ParserEnv.NumParser, prefix: string,
                                                fields: Fields, schema: Schema, n: nat)
    requires UniqueNames(schema) && n <= |schema.fields| && EnvSchemaSafe(env, num, prefix, schema, n)
    ensures var once := EnvMessage(env, num, prefix, fields, schema, n);
            EnvMessage(env, num, prefix, once, schema, n) == once
    decreases schema, 1
  {
    var once := EnvMessage(env, num, prefix, fields, schema, n);
    var twice := EnvMessage(env, num, prefix, once, schema, n);
    forall k
      ensures SameAt(twice, once, k)
    {
      if i :| 0 <= i < n && schema.fields[i].name == k {
        EnvMessageAt(env, num, prefix, fields, schema, n, i);
        EnvMessageAt(env, num, prefix, once, schema, n, i);
        EnvMessageKeeps(env, num, prefix, once, schema, i, k);
        EnvFieldStable(env, num, prefix, EnvMessage(env, num, prefix, once, schema, i),
                       EnvMessage(env, num, prefix, fields, schema, i), schema.fields[i]);
      } else {
        EnvMessageKeeps(env, num, prefix, once, schema, n, k);
      }
    }
    SameEverywhere(twice, once);
  }
}
