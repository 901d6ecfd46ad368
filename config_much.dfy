/**
  The public entry point (ConfigMuch::Builder and ConfigMuch::Parser): the
  builder collects YAML files in call order and an environment prefix; the
  parser applies every file, front to back, to one message, then the
  environment. This parser has its own YAML and environment walks, which
  report nothing: defects are logged and skipped, and the cases that throw
  or abort are preconditions.
 */
module ConfigMuch {
  import opened Wrappers
  import opened Protobuf
  import opened YamlTree
  import opened CaseConvert
  import ParserEnv

  // ---------------------------------------------------------------------------
  // Specification of the YAML walk

  /** The repeated fields parse_array fills: all but enums and messages, which are only logged. */
  predicate ListType(k: Kind)
  {
    CppTypeOf(k) != CppEnum && CppTypeOf(k) != CppMessage
  }

  /** The nodes `for (n : node)` visits: a sequence's items; a scalar, null or empty mapping has none. */
  function Iterated(v: Node): seq<Node>
  {
    if v.Sequence? then v.items else []
  }

  /** Every node converts to the target. */
  predicate AllConvert(conv: Converter, t: Target, items: seq<Node>)
  {
    forall i :: 0 <= i < |items| ==> conv(t, items[i]).Converted?
  }

  /** The converted values of the nodes, in order. */
  function ConvertAll(conv: Converter, t: Target, items: seq<Node>): seq<Value>
    requires AllConvert(conv, t, items)
  {
    seq(|items|, i requires 0 <= i < |items| => conv(t, items[i]).value)
  }

  /**
    The YAML walk does not throw on field f: every `as<T>()` it calls
    converts, a repeated field is not given a non-empty mapping (whose
    elements are not nodes), and a message field given a scalar has no
    fields to subscript it with.
   */
  predicate YamlFieldSafe(conv: Converter, node: Node, f: Field)
    decreases f, 0
  {
    match Lookup(node, f.name)
    case None => true
    case Some(v) =>
      if f.repeated then
        !ListType(f.kind)
        || (!(v.Map? && v.entries != []) && AllConvert(conv, ElementTarget(CppTypeOf(f.kind)), Iterated(v)))
      else if f.kind.Message? then
        (v.Scalar? ==> f.kind.schema.fields == [])
        && YamlSchemaSafe(conv, v, f.kind.schema, |f.kind.schema.fields|)
      else !v.Scalar? || !Settable(f.kind) || conv(TargetOf(SwitchSetter(f.kind)), v).Converted?
  }

  predicate YamlSchemaSafe(conv: Converter, node: Node, schema: Schema, n: nat)
    requires n <= |schema.fields|
    decreases schema, n
  {
    n == 0 || (YamlSchemaSafe(conv, node, schema, n - 1) && YamlFieldSafe(conv, node, schema.fields[n - 1]))
  }

  /** Parser::parse(msg, node, field): the message's fields after field f. */
  function YamlField(conv: Converter, fields: Fields, node: Node, f: Field): Fields
    requires YamlFieldSafe(conv, node, f)
    decreases f, 0
  {
    match Lookup(node, f.name)
    case None => fields
    case Some(v) =>
      if f.repeated then
        if !ListType(f.kind) then fields
        else fields[f.name := List(ConvertAll(conv, ElementTarget(CppTypeOf(f.kind)), Iterated(v)))]
      else if f.kind.Message? then
        fields[f.name := Nested(YamlMessage(conv, ChildFields(fields, f.name), v, f.kind.schema, |f.kind.schema.fields|))]
      else if !v.Scalar? || !Settable(f.kind) then fields
      else fields[f.name := Leaf(conv(TargetOf(SwitchSetter(f.kind)), v).value)]
  }

  /** The first n fields of the schema against one mapping, in declaration order. */
  function YamlMessage(conv: Converter, fields: Fields, node: Node, schema: Schema, n: nat): Fields
    requires n <= |schema.fields| && YamlSchemaSafe(conv, node, schema, n)
    decreases schema, n
  {
    if n == 0 then fields
    else YamlField(conv, YamlMessage(conv, fields, node, schema, n - 1), node, schema.fields[n - 1])
  }

  /** Every file loads (is a path of the file system) to a document that is not a scalar and does not throw. */
  predicate FilesSafe(conv: Converter, docs: map<string, Node>, files: seq<string>, schema: Schema)
  {
    forall i :: 0 <= i < |files| ==>
      files[i] in docs && !docs[files[i]].Scalar? && YamlSchemaSafe(conv, docs[files[i]], schema, |schema.fields|)
  }

  /** The files applied one after the other, front to back. */
  function ApplyFiles(conv: Converter, docs: map<string, Node>, files: seq<string>, fields: Fields, schema: Schema): Fields
    requires FilesSafe(conv, docs, files, schema)
    decreases |files|
  {
    if files == [] then fields
    else
      var rest := files[..|files| - 1];
      assert FilesSafe(conv, docs, rest, schema) by {
        assert forall i :: 0 <= i < |rest| ==> rest[i] == files[i];
      }
      YamlMessage(conv, ApplyFiles(conv, docs, rest, fields, schema), docs[files[|files| - 1]], schema, |schema.fields|)
  }

  // ---------------------------------------------------------------------------
  // Specification of the environment walk

  /**
    The environment walk does not abort on field f: it enters only singular
    message fields (MutableMessage of a repeated one aborts), never calls a
    setter on a repeated field (its variable is unset, or the type is only
    logged), and every std::sto* it calls converts.
   */
  predicate EnvFieldSafe(env: ParserEnv.Env, num: ParserEnv.NumParser, prefix: string, f: Field)
    decreases f, 0
  {
    var name := ParserEnv.CookEnvVar(prefix, f.name);
    if f.kind.Message? then !f.repeated && EnvSchemaSafe(env, num, name, f.kind.schema, |f.kind.schema.fields|)
    else name !in env || !Settable(f.kind)
         || (!f.repeated && ParserEnv.SetterText(num, SwitchSetter(f.kind), env[name]).Some?)
  }

  predicate EnvSchemaSafe(env: ParserEnv.Env, num: ParserEnv.NumParser, prefix: string, schema: Schema, n: nat)
    requires n <= |schema.fields|
    decreases schema, n
  {
    n == 0 || (EnvSchemaSafe(env, num, prefix, schema, n - 1) && EnvFieldSafe(env, num, prefix, schema.fields[n - 1]))
  }

  /** Parser::parse(msg, prefix, field): enums and bytes are only logged. */
  function EnvField(env: ParserEnv.Env, num: ParserEnv.NumParser, prefix: string, fields: Fields, f: Field): Fields
    requires EnvFieldSafe(env, num, prefix, f)
    decreases f, 0
  {
    var name := ParserEnv.CookEnvVar(prefix, f.name);
    if f.kind.Message? then
      fields[f.name := Nested(EnvMessage(env, num, name, ChildFields(fields, f.name), f.kind.schema, |f.kind.schema.fields|))]
    else if name !in env || !Settable(f.kind) then fields
    else fields[f.name := Leaf(ParserEnv.SetterText(num, SwitchSetter(f.kind), env[name]).value)]
  }

  function EnvMessage(env: ParserEnv.Env, num: ParserEnv.NumParser, prefix: string, fields: Fields, schema: Schema, n: nat): Fields
    requires n <= |schema.fields| && EnvSchemaSafe(env, num, prefix, schema, n)
    decreases schema, n
  {
    if n == 0 then fields
    else EnvField(env, num, prefix, EnvMessage(env, num, prefix, fields, schema, n - 1), schema.fields[n - 1])
  }

  /** What Parser::parse leaves in the message: the files in order, then the environment. */
  function ParseResult(conv: Converter, docs: map<string, Node>, files: seq<string>,
                       env: ParserEnv.Env, num: ParserEnv.NumParser, prefix: string,
                       fields: Fields, schema: Schema): Fields
    requires FilesSafe(conv, docs, files, schema) && EnvSchemaSafe(env, num, prefix, schema, |schema.fields|)
  {
    EnvMessage(env, num, prefix, ApplyFiles(conv, docs, files, fields, schema), schema, |schema.fields|)
  }

  lemma {:induction false} YamlSchemaSafePrefix(conv: Converter, node: Node, schema: Schema, n: nat, m: nat)
    requires m <= n <= |schema.fields| && YamlSchemaSafe(conv, node, schema, n)
    ensures YamlSchemaSafe(conv, node, schema, m)
    decreases n
  {
    if m < n {
      YamlSchemaSafePrefix(conv, node, schema, n - 1, m);
    }
  }

  lemma {:induction false} EnvSchemaSafePrefix(env: ParserEnv.Env, num: ParserEnv.NumParser, prefix: string,
                                               schema: Schema, n: nat, m: nat)
    requires m <= n <= |schema.fields| && EnvSchemaSafe(env, num, prefix, schema, n)
    ensures EnvSchemaSafe(env, num, prefix, schema, m)
    decreases n
  {
    if m < n {
      EnvSchemaSafePrefix(env, num, prefix, schema, n - 1, m);
    }
  }

  // ---------------------------------------------------------------------------
  // The parser

  class Parser {
    const files: seq<string>
    const envVarPrefix: string

    /** The constructor copies both arguments. */
    constructor (files: seq<string>, envVarPrefix: string)
      ensures this.files == files && this.envVarPrefix == envVarPrefix
    {
      this.files := files;
      this.envVarPrefix := envVarPrefix;
    }

    /**
      parse(msg): every file, front to back, over all top-level fields, then
      the environment over all top-level fields. `docs` is the file system:
      the document each path loads to.
     */
    method Parse(msg: Message, docs: map<string, Node>, conv: Converter, env: ParserEnv.Env, num: ParserEnv.NumParser)
      requires FilesSafe(conv, docs, files, msg.schema)
      requires EnvSchemaSafe(env, num, envVarPrefix, msg.schema, |msg.schema.fields|)
      modifies msg
      ensures msg.fields == ParseResult(conv, docs, files, env, num, envVarPrefix, old(msg.fields), msg.schema)
    {
      var schema := msg.schema;
      for j := 0 to |files|
        invariant FilesSafe(conv, docs, files[..j], schema)
        invariant msg.fields == ApplyFiles(conv, docs, files[..j], old(msg.fields), schema)
      {
        assert files[..j + 1][..j] == files[..j];
        assert forall i :: 0 <= i < j + 1 ==> files[..j + 1][i] == files[i];
        ParseYamlFields(msg, docs[files[j]], conv);
      }
      assert files[..|files|] == files;
      ParseEnvFields(msg, envVarPrefix, env, num);
    }

    /** The loop over a message's fields against one mapping. */
    static method ParseYamlFields(msg: Message, node: Node, conv: Converter)
      requires YamlSchemaSafe(conv, node, msg.schema, |msg.schema.fields|)
      modifies msg
      decreases msg.schema, 1
      ensures msg.fields == YamlMessage(conv, old(msg.fields), node, msg.schema, |msg.schema.fields|)
    {
      var schema := msg.schema;
      for i := 0 to |schema.fields|
        invariant YamlSchemaSafe(conv, node, schema, i)
        invariant msg.fields == YamlMessage(conv, old(msg.fields), node, schema, i)
      {
        YamlSchemaSafePrefix(conv, node, schema, |schema.fields|, i + 1);
        ParseYamlField(msg, node, schema.fields[i], conv);
      }
    }

    /** parse(msg, node, field). */
    static method ParseYamlField(msg: Message, node: Node, f: Field, conv: Converter)
      requires YamlFieldSafe(conv, node, f)
      modifies msg
      decreases f, 0
      ensures msg.fields == YamlField(conv, old(msg.fields), node, f)
    {
      var found := Lookup(node, f.name);
      if found.None? {
        return;
      }
      var v := found.value;

      if f.repeated {
        ParseArray(msg, v, f, conv);
        return;
      }

      if f.kind.Message? {
        var m := msg.MutableMessage(f);
        ParseYamlFields(m, v, conv);
        msg.SetMessage(f.name, m);
        return;
      }

      if !v.Scalar? {
        return;
      }
      if !(f.kind.Bytes? || f.kind.Enum?) {
        var value := conv(TargetOf(SwitchSetter(f.kind)), v).value;
        msg.SetLeaf(f.name, value);
      }
    }

    /** parse_array: by C++ type; enum and message lists are only logged. */
    static method ParseArray(msg: Message, v: Node, f: Field, conv: Converter)
      requires !ListType(f.kind) || (!(v.Map? && v.entries != []) && AllConvert(conv, ElementTarget(CppTypeOf(f.kind)), Iterated(v)))
      modifies msg
      ensures !ListType(f.kind) ==> msg.fields == old(msg.fields)
      ensures ListType(f.kind) ==>
                msg.fields == old(msg.fields)[f.name := List(ConvertAll(conv, ElementTarget(CppTypeOf(f.kind)), Iterated(v)))]
    {
      if ListType(f.kind) {
        ParseArrayField(msg, Iterated(v), f.name, ElementTarget(CppTypeOf(f.kind)), conv);
      }
    }

    /** parse_array_field<T>: clear, then add every element converted. */
    static method ParseArrayField(msg: Message, items: seq<Node>, name: string, t: Target, conv: Converter)
      requires AllConvert(conv, t, items)
      modifies msg
      ensures msg.fields == old(msg.fields)[name := List(ConvertAll(conv, t, items))]
    {
      msg.ClearRepeated(name);
      for i := 0 to |items|
        invariant msg.fields == old(msg.fields)[name := List(ConvertAll(conv, t, items)[..i])]
      {
        msg.AddRepeated(name, conv(t, items[i]).value);
        assert ConvertAll(conv, t, items)[..i + 1] == ConvertAll(conv, t, items)[..i] + [conv(t, items[i]).value];
      }
      assert ConvertAll(conv, t, items)[..|items|] == ConvertAll(conv, t, items);
    }

    /** The loop over a message's fields under one prefix. */
    static method ParseEnvFields(msg: Message, prefix: string, env: ParserEnv.Env, num: ParserEnv.NumParser)
      requires EnvSchemaSafe(env, num, prefix, msg.schema, |msg.schema.fields|)
      modifies msg
      decreases msg.schema, 1
      ensures msg.fields == EnvMessage(env, num, prefix, old(msg.fields), msg.schema, |msg.schema.fields|)
    {
      var schema := msg.schema;
      for i := 0 to |schema.fields|
        invariant EnvSchemaSafe(env, num, prefix, schema, i)
        invariant msg.fields == EnvMessage(env, num, prefix, old(msg.fields), schema, i)
      {
        EnvSchemaSafePrefix(env, num, prefix, schema, |schema.fields|, i + 1);
        ParseEnvField(msg, prefix, schema.fields[i], env, num);
      }
    }

    /** parse(msg, prefix, field). */
    static method ParseEnvField(msg: Message, prefix: string, f: Field, env: ParserEnv.Env, num: ParserEnv.NumParser)
      requires EnvFieldSafe(env, num, prefix, f)
      modifies msg
      decreases f, 0
      ensures msg.fields == EnvField(env, num, prefix, old(msg.fields), f)
    {
      var envVar := CookEnvVar(prefix, f.name);

      if f.kind.Message? {
        var m := msg.MutableMessage(f);
        ParseEnvFields(m, envVar, env, num);
        msg.SetMessage(f.name, m);
        return;
      }

      if envVar !in env {
        return;
      }
      var value := env[envVar];
      if !(f.kind.Bytes? || f.kind.Enum?) {
        msg.SetLeaf(f.name, ParserEnv.SetterText(num, SwitchSetter(f.kind), value).value);
      }
    }

    /** cook_env_var: the prefix, '_', and to_upper(camel_to_snake_case(suffix)). */
    static method CookEnvVar(prefix: string, suffix: string) returns (name: string)
      ensures name == ParserEnv.CookEnvVar(prefix, suffix)
    {
      var snake := CamelToSnakeCase(suffix);
      var upper := ToUpper(snake);
      name := prefix + "_" + upper;
    }

    /** camel_to_snake_case: the loop of camel_to_snake with capitalize off. */
    static method CamelToSnakeCase(s: string) returns (out: string)
      ensures out == SnakeOf(s, false)
    {
      out := CamelToSnake(s, false);
    }

    /** to_upper: the transform of all_caps. */
    static method ToUpper(s: string) returns (out: string)
      ensures out == AllCapsOf(s)
    {
      out := AllCaps(s);
    }
  }

  // ---------------------------------------------------------------------------
  // The builder

  class Builder {
    var envVarPrefix: string
    var files: seq<string>

    constructor ()
      ensures envVarPrefix == [] && files == []
    {
      envVarPrefix := [];
      files := [];
    }

    /** add_file: the path goes to the end of the list; the builder is returned for chaining. */
    method AddFile(p: string) returns (self: Builder)
      modifies this
      ensures files == old(files) + [p] && envVarPrefix == old(envVarPrefix) && self == this
    {
      files := files + [p];
      self := this;
    }

    /** set_env_var_prefix: the prefix is replaced. */
    method SetEnvVarPrefix(prefix: string) returns (self: Builder)
      modifies this
      ensures envVarPrefix == prefix && files == old(files) && self == this
    {
      envVarPrefix := prefix;
      self := this;
    }

    /**
      build: a parser with the same files, in order, and the same prefix. The
      parser's constructor copies its arguments, so the builder keeps both.
     */
    method Build() returns (parser: Parser)
      ensures fresh(parser)
      ensures parser.files == files && parser.envVarPrefix == envVarPrefix
    {
      parser := new Parser(files, envVarPrefix);
    }
  }

  /** A chain of calls: the parser sees the files in the order they were added. */
  method BuildInOrder(first: string, second: string, prefix: string) returns (parser: Parser)
    ensures parser.files == [first, second] && parser.envVarPrefix == prefix
  {
    var b := new Builder();
    b := b.AddFile(first);
    b := b.SetEnvVarPrefix(prefix);
    b := b.AddFile(second);
    parser := b.Build();
  }
}
