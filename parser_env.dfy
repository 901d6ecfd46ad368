/**
  The environment overlay (config_much::internal::ParserEnv): every field of
  the message is looked up under a variable name built from a prefix and the
  field's name; nested messages extend the prefix, repeated fields probe
  NAME_0, NAME_1, ... up to the first unset index.
 */
module ParserEnv {
  import opened Wrappers
  import opened Protobuf
  import opened CaseConvert

  /** The process environment, as std::getenv sees it. */
  type Env = map<string, string>

  // ---------------------------------------------------------------------------
  // Variable names

  /**
    cook_env_var: the prefix, '_', and the field name in snake case,
    upper-cased, which is the field name's upper snake case.
   */
  function CookEnvVar(prefix: string, suffix: string): (r: string)
    ensures r == prefix + "_" + SnakeOf(suffix, true)
  {
    SnakeUpperIsAllCaps(suffix);
    prefix + "_" + AllCapsOf(SnakeOf(suffix, false))
  }

  /** std::to_string of a non-negative index: its decimal digits, most significant first. */
  function NatToString(n: nat): (r: string)
    ensures r != []
    ensures forall i :: 0 <= i < |r| ==> '0' <= r[i] <= '9'
  {
    if n < 10 then [(48 + n) as char]
    else NatToString(n / 10) + [(48 + n % 10) as char]
  }

  /** The number a string of decimal digits denotes. */
  function DigitsValue(s: string): int
  {
    if s == [] then 0 else DigitsValue(s[..|s| - 1]) * 10 + (s[|s| - 1] as int - 48)
  }

  lemma {:induction false} NatToStringRoundTrip(n: nat)
    ensures DigitsValue(NatToString(n)) == n
  {
    var s := NatToString(n);
    if n < 10 {
      assert s[..|s| - 1] == [];
    } else {
      NatToStringRoundTrip(n / 10);
      assert s[..|s| - 1] == NatToString(n / 10);
    }
  }

  /** The name probed for element i of a repeated field: prefix + '_' + std::to_string(i). */
  function Probe(prefix: string, i: nat): string
  {
    prefix + "_" + NatToString(i)
  }

  /** Different indices are probed under different names. */
  lemma ProbeInjective(prefix: string, i: nat, j: nat)
    requires Probe(prefix, i) == Probe(prefix, j)
    ensures i == j
  {
    assert Probe(prefix, i)[|prefix| + 1..] == NatToString(i);
    assert Probe(prefix, j)[|prefix| + 1..] == NatToString(j);
    NatToStringRoundTrip(i);
    NatToStringRoundTrip(j);
  }

  function ProbeNames(prefix: string, n: nat): set<string>
  {
    set j | 0 <= j < n :: Probe(prefix, j)
  }

  lemma {:induction false} ProbeNamesCount(prefix: string, n: nat)
    ensures |ProbeNames(prefix, n)| == n
  {
    if n > 0 {
      var before, last := ProbeNames(prefix, n - 1), Probe(prefix, n - 1);
      ProbeNamesCount(prefix, n - 1);
      assert ProbeNames(prefix, n) == before + {last};
      assert last !in before by {
        if last in before {
          var j :| 0 <= j < n - 1 && Probe(prefix, j) == last;
          ProbeInjective(prefix, j, n - 1);
        }
      }
      assert |before + {last}| == |before| + 1;
    }
  }

  /** n distinct names set in the environment: there are at least n variables. */
  lemma ProbeBound(env: Env, prefix: string, n: nat)
    requires forall j :: 0 <= j < n ==> Probe(prefix, j) in env
    ensures n <= |env|
  {
    ProbeNamesCount(prefix, n);
    SubsetCount(ProbeNames(prefix, n), env.Keys);
  }

  lemma {:induction false} SubsetCount(a: set<string>, b: set<string>)
    requires a <= b
    ensures |a| <= |b|
    decreases |a|
  {
    if a != {} {
      var x :| x in a;
      SubsetCount(a - {x}, b - {x});
    }
  }

  /** The first unset index at or after i, when every index before i is set. */
  function FirstUnsetFrom(env: Env, prefix: string, i: nat): (k: nat)
    requires forall j :: 0 <= j < i ==> Probe(prefix, j) in env
    ensures i <= k
    ensures forall j :: 0 <= j < k ==> Probe(prefix, j) in env
    ensures Probe(prefix, k) !in env
    decreases |env| - i
  {
    if Probe(prefix, i) !in env then i
    else
      ProbeBound(env, prefix, i + 1);
      FirstUnsetFrom(env, prefix, i + 1)
  }

  /** The number of elements a repeated field reads: the first unset index. */
  function FirstUnset(env: Env, prefix: string): nat
  {
    FirstUnsetFrom(env, prefix, 0)
  }

  /** The texts of NAME_0 ... NAME_{k-1}. */
  function Texts(env: Env, name: string): (ts: seq<string>)
    ensures |ts| == FirstUnset(env, name)
    ensures forall j :: 0 <= j < |ts| ==> Probe(name, j) in env && ts[j] == env[Probe(name, j)]
  {
    var k := FirstUnset(env, name);
    seq(k, j requires 0 <= j < k => env[Probe(name, j)])
  }

  // ---------------------------------------------------------------------------
  // Text conversions

  /** The std::sto* functions the parser calls on a variable's text. */
  datatype StdParse = Stod | Stof | Stoll | Stoull | Stoul | Stoi

  /** Their results: the number read, or nothing where they throw, which aborts the program. */
  type NumParser = (StdParse, string) -> Option<Value>

  const TwoTo32: int := 0x1_0000_0000

  /** The unsigned long of std::stoul stored in a uint32: reduced modulo 2^32. */
  function ToUInt32(v: Option<Value>): Option<Value>
  {
    if v.Some? && v.value.IntV? then Some(IntV(v.value.i % TwoTo32)) else v
  }

  /** The whitespace of the C locale, which `is >> x` skips. */
  predicate IsSpace(c: char)
  {
    c == ' ' || c == '\t' || c == '\n' || c == '\U{000B}' || c == '\U{000C}' || c == '\r'
  }

  /** The text after its leading whitespace: what is dropped is all whitespace, and what is left does not start with any. */
  function SkipSpace(s: string): (r: string)
    ensures r == [] || !IsSpace(r[0])
    ensures |r| <= |s| && r == s[|s| - |r|..]
    ensures forall j :: 0 <= j < |s| - |r| ==> IsSpace(s[j])
  {
    if s != [] && IsSpace(s[0]) then SkipSpace(s[1..]) else s
  }

  /**
    `is >> std::boolalpha >> parsed`: after leading whitespace the stream
    reads "true" or "false"; anything else fails and leaves false.
   */
  function BoolAlpha(text: string): (r: bool)
    ensures r <==> "true" <= SkipSpace(text)
  {
    var t := SkipSpace(text);
    |t| >= 4 && t[..4] == "true"
  }

  /** What a variable's text gives through the setter the type switch chooses. */
  function SetterText(num: NumParser, s: Setter, text: string): (r: Option<Value>)
    ensures s == SetBool ==> r == Some(BoolV(BoolAlpha(text)))
    ensures s == SetString ==> r == Some(StrV(text))
    ensures s == SetUInt32 && r.Some? && r.value.IntV? ==> 0 <= r.value.i < TwoTo32
  {
    match s
    case SetDouble => num(Stod, text)
    case SetFloat => num(Stof, text)
    case SetInt64 => num(Stoll, text)
    case SetUInt64 => num(Stoull, text)
    case SetUInt32 => ToUInt32(num(Stoul, text))
    case SetInt32 => num(Stoi, text)
    case SetBool => Some(BoolV(BoolAlpha(text)))
    case SetString => Some(StrV(text))
  }

  /** What a variable's text gives a singular field: enums by name, bytes nothing. */
  function ScalarText(num: NumParser, f: Field, text: string): (r: Option<Value>)
    requires !f.kind.Message? && !f.kind.Bytes?
    ensures f.kind.Enum? ==> (r.None? <==> forall i :: 0 <= i < |f.kind.values| ==> f.kind.values[i].name != text)
    ensures f.kind.Enum? && r.Some? ==>
              exists i :: 0 <= i < |f.kind.values| && f.kind.values[i].name == text && r.value == IntV(f.kind.values[i].number)
    ensures f.kind.String? ==> r == Some(StrV(text))
    ensures f.kind.Bool? ==> r == Some(BoolV(BoolAlpha(text)))
    ensures f.kind.SInt64? ==> r == num(Stoll, text)
  {
    if f.kind.Enum? then
      match FindValueByName(f.kind.values, text)
      case Some(number) => Some(IntV(number))
      case None => None
    else SetterText(num, SwitchSetter(f.kind), text)
  }

  /**
    What a variable's text gives one element of a repeated field, by the
    field's C++ type; a repeated int64 is read with std::stoi.
   */
  function ElementText(num: NumParser, f: Field, text: string): (r: Option<Value>)
    requires CppTypeOf(f.kind) != CppMessage
    ensures f.kind.Enum? ==> (r.None? <==> forall i :: 0 <= i < |f.kind.values| ==> f.kind.values[i].name != text)
    ensures f.kind.Enum? && r.Some? ==>
              exists i :: 0 <= i < |f.kind.values| && f.kind.values[i].name == text && r.value == IntV(f.kind.values[i].number)
    ensures f.kind.String? || f.kind.Bytes? ==> r == Some(StrV(text))
    ensures f.kind.Bool? ==> r == Some(BoolV(BoolAlpha(text)))
    ensures f.kind.Int64? || f.kind.SInt64? || f.kind.SFixed64? ==> r == num(Stoi, text)
    ensures CppTypeOf(f.kind) == CppUInt32 && r.Some? && r.value.IntV? ==> 0 <= r.value.i < TwoTo32
  {
    match CppTypeOf(f.kind)
    case CppInt32 => num(Stoi, text)
    case CppInt64 => num(Stoi, text)
    case CppUInt32 => ToUInt32(num(Stoul, text))
    case CppUInt64 => num(Stoull, text)
    case CppDouble => num(Stod, text)
    case CppFloat => num(Stof, text)
    case CppBool => Some(BoolV(BoolAlpha(text)))
    case CppEnum =>
      (match FindValueByName(f.kind.values, text)
       case Some(number) => Some(IntV(number))
       case None => None)
    case CppString => Some(StrV(text))
  }

  /**
    The same through the switch as written, where TYPE_SINT64 shares the
    case of SetUInt64: std::stoull either throws or hands SetUInt64 an int64
    field, and both abort (None).
   */
  function ScalarTextAsWritten(num: NumParser, f: Field, text: string): Option<Value>
    requires !f.kind.Message? && !f.kind.Bytes?
  {
    if f.kind.Enum? then ScalarText(num, f, text)
    else
      var s := SwitchSetterAsWritten(f.kind);
      if SetterType(s) != CppTypeOf(f.kind) then None else SetterText(num, s, text)
  }

  // ---------------------------------------------------------------------------
  // Specification of the walk

  /** Every element text a repeated field reads converts (std::sto* does not throw, enum names exist). */
  predicate ListParses(env: Env, num: NumParser, f: Field, name: string)
    requires CppTypeOf(f.kind) != CppMessage
  {
    forall t :: t in Texts(env, name) ==> ElementText(num, f, t).Some?
  }

  /** The elements a repeated field gets: NAME_0 ... NAME_{k-1}, converted. */
  function ListValues(env: Env, num: NumParser, f: Field, name: string): seq<Value>
    requires CppTypeOf(f.kind) != CppMessage && ListParses(env, num, f, name)
  {
    var ts := Texts(env, name);
    seq(|ts|, j requires 0 <= j < |ts| => ElementText(num, f, ts[j]).value)
  }

  /**
    The walk does not abort on field f: the texts it converts convert, and
    every enum name it looks up exists.
   */
  predicate FieldSafe(env: Env, num: NumParser, prefix: string, f: Field)
    decreases f, 0
  {
    var name := CookEnvVar(prefix, f.name);
    if f.repeated then CppTypeOf(f.kind) == CppMessage || ListParses(env, num, f, name)
    else if f.kind.Message? then SchemaSafe(env, num, name, f.kind.schema, |f.kind.schema.fields|)
    else name !in env || f.kind.Bytes? || ScalarText(num, f, env[name]).Some?
  }

  predicate SchemaSafe(env: Env, num: NumParser, prefix: string, schema: Schema, n: nat)
    requires n <= |schema.fields|
    decreases schema, n
  {
    n == 0 || (SchemaSafe(env, num, prefix, schema, n - 1) && FieldSafe(env, num, prefix, schema.fields[n - 1]))
  }

  /** parse(msg, prefix, field): the message's fields after field f is looked up under prefix. */
  function EnvField(env: Env, num: NumParser, prefix: string, fields: Fields, f: Field): Fields
    requires FieldSafe(env, num, prefix, f)
    decreases f, 0
  {
    var name := CookEnvVar(prefix, f.name);
    if f.repeated then
      if CppTypeOf(f.kind) == CppMessage then fields
      else fields[f.name := List(ListValues(env, num, f, name))]
    else if f.kind.Message? then
      fields[f.name := Nested(EnvMessage(env, num, name, ChildFields(fields, f.name), f.kind.schema, |f.kind.schema.fields|))]
    else if name !in env || f.kind.Bytes? then fields
    else fields[f.name := Leaf(ScalarText(num, f, env[name]).value)]
  }

  /** The first n fields of the schema, in declaration order, under one prefix. */
  function EnvMessage(env: Env, num: NumParser, prefix: string, fields: Fields, schema: Schema, n: nat): Fields
    requires n <= |schema.fields| && SchemaSafe(env, num, prefix, schema, n)
    decreases schema, n
  {
    if n == 0 then fields
    else EnvField(env, num, prefix, EnvMessage(env, num, prefix, fields, schema, n - 1), schema.fields[n - 1])
  }

  // ---------------------------------------------------------------------------
  // The parser

  lemma {:induction false} SchemaSafePrefix(env: Env, num: NumParser, prefix: string, schema: Schema, n: nat, m: nat)
    requires m <= n <= |schema.fields| && SchemaSafe(env, num, prefix, schema, n)
    ensures SchemaSafe(env, num, prefix, schema, m)
    decreases n
  {
    if m < n {
      SchemaSafePrefix(env, num, prefix, schema, n - 1, m);
    }
  }

  class ParserEnv {
    const prefix: string

    /** The prefix is stored upper-cased. */
    constructor (prefix: string)
      ensures this.prefix == AllCapsOf(prefix)
    {
      var p := AllCaps(prefix);
      this.prefix := p;
    }

    /** parse(msg): every field of the message's type under the stored prefix; nothing is reported. */
    method Parse(msg: Message, env: Env, num: NumParser)
      requires SchemaSafe(env, num, prefix, msg.schema, |msg.schema.fields|)
      modifies msg
      ensures msg.fields == EnvMessage(env, num, prefix, old(msg.fields), msg.schema, |msg.schema.fields|)
    {
      ParseMessage(msg, prefix, env, num);
    }

    /** parse(msg, prefix, field). */
    static method ParseField(msg: Message, prefix: string, f: Field, env: Env, num: NumParser)
      requires FieldSafe(env, num, prefix, f)
      modifies msg
      decreases f, 0
      ensures msg.fields == EnvField(env, num, prefix, old(msg.fields), f)
    {
      var envVar := CookEnvVar(prefix, f.name);

      if f.repeated {
        ParseArray(msg, envVar, f, env, num);
        return;
      }

      if f.kind.Message? {
        var m := msg.MutableMessage(f);
        ParseMessage(m, envVar, env, num);
        msg.SetMessage(f.name, m);
        return;
      }

      if envVar !in env {
        return;
      }
      var value := env[envVar];
      if !f.kind.Bytes? {
        msg.SetLeaf(f.name, ScalarText(num, f, value).value);
      }
    }

    /** The loop over a message's fields, in declaration order, under one prefix. */
    static method ParseMessage(msg: Message, prefix: string, env: Env, num: NumParser)
      requires SchemaSafe(env, num, prefix, msg.schema, |msg.schema.fields|)
      modifies msg
      decreases msg.schema, 1
      ensures msg.fields == EnvMessage(env, num, prefix, old(msg.fields), msg.schema, |msg.schema.fields|)
    {
      var schema := msg.schema;
      for i := 0 to |schema.fields|
        invariant SchemaSafe(env, num, prefix, schema, i)
        invariant msg.fields == EnvMessage(env, num, prefix, old(msg.fields), schema, i)
      {
        SchemaSafePrefix(env, num, prefix, schema, |schema.fields|, i + 1);
        ParseField(msg, prefix, schema.fields[i], env, num);
      }
    }

    /** parse_array: a repeated message field is only logged; any other is cleared and probed. */
    static method ParseArray(msg: Message, name: string, f: Field, env: Env, num: NumParser)
      requires f.repeated && (CppTypeOf(f.kind) == CppMessage || ListParses(env, num, f, name))
      modifies msg
      ensures CppTypeOf(f.kind) == CppMessage ==> msg.fields == old(msg.fields)
      ensures CppTypeOf(f.kind) != CppMessage ==>
                msg.fields == old(msg.fields)[f.name := List(ListValues(env, num, f, name))]
    {
      if CppTypeOf(f.kind) == CppMessage {
        return;
      }
      ghost var ts, vs := Texts(env, name), ListValues(env, num, f, name);
      msg.ClearRepeated(f.name);
      var i := 0;
      var key := Probe(name, i);
      while key in env
        invariant key == Probe(name, i)
        invariant forall j :: 0 <= j < i ==> Probe(name, j) in env
        invariant i <= |ts| && |vs| == |ts|
        invariant msg.fields == old(msg.fields)[f.name := List(vs[..i])]
        decreases |env| - i
      {
        assert i < |ts|;
        ProbeBound(env, name, i + 1);
        assert env[key] == ts[i];
        var value := ElementText(num, f, env[key]).value;
        assert value == vs[i];
        msg.AddRepeated(f.name, value);
        assert vs[..i + 1] == vs[..i] + [value];
        i := i + 1;
        key := Probe(name, i);
      }
      assert vs[..i] == vs;
    }

    /** camel_to_snake_case: the same loop as camel_to_snake with capitalize off. */
    static method CamelToSnakeCase(s: string) returns (out: string)
      ensures out == SnakeOf(s, false)
    {
      out := CamelToSnake(s, false);
    }

    /** to_upper: the same transform as all_caps. */
    static method ToUpper(s: string) returns (out: string)
      ensures out == AllCapsOf(s)
    {
      out := AllCaps(s);
    }
  }
}
