/**
  The schema-driven YAML walk (config_much::internal::ParserYaml): the
  message's fields are visited in declaration order in lock-step with a
  document tree; every defect becomes an error message, and the walk goes on
  to the next field.
 */
module ParserYaml {
  import opened Wrappers
  import opened Protobuf
  import opened YamlTree
  import opened ParserErrors

  // ---------------------------------------------------------------------------
  // Error messages

  /** A character as std::quoted writes it: '"' and '\' get a '\' in front. */
  function EscapeChar(c: char): string
  {
    if c == '"' || c == '\\' then ['\\', c] else [c]
  }

  function Escape(s: string): string
  {
    if s == [] then [] else Escape(s[..|s| - 1]) + EscapeChar(s[|s| - 1])
  }

  /** A std::filesystem::path written with operator<<, that is, std::quoted. */
  function Quoted(path: string): string
  {
    "\"" + Escape(path) + "\""
  }

  /** node_type_to_string, for the kinds of node a present key can have. */
  function NodeTypeName(n: Node): string
  {
    match n
    case Null => "Null"
    case Scalar(_) => "Scalar"
    case Sequence(_) => "Sequence"
    case Map(_) => "Map"
  }

  /** wrap_error: the file, then the exception's message. */
  function WrapError(file: string, what: string): string
  {
    Quoted(file) + ": " + what
  }

  function TypeMismatch(file: string, name: string, expected: string, n: Node): string
  {
    Quoted(file) + ": Type mismatch for '" + name + "' - expected " + expected + ", got " + NodeTypeName(n)
  }

  function NonScalar(file: string): string
  {
    Quoted(file) + ": Attempting to parse non-scalar field as scalar"
  }

  function InvalidEnum(file: string, text: string, name: string): string
  {
    Quoted(file) + ": Invalid enum value '" + text + "' for field " + name
  }

  const UnsupportedRepeatedMessage := "Unsupport repeated type MESSAGE"

  // ---------------------------------------------------------------------------
  // Specification of the walk

  /** try_convert<T>: the converted value, or the wrapped message of the exception. */
  function TryConvert(file: string, conv: Converter, t: Target, n: Node): (r: Result<Value, string>)
    ensures r.Ok? <==> conv(t, n).Converted?
    ensures r.Ok? ==> r.value == conv(t, n).value
    ensures r.Err? ==> r.error == WrapError(file, conv(t, n).what)
  {
    match conv(t, n)
    case Converted(v) => Ok(v)
    case Failed(what) => Err(WrapError(file, what))
  }

  /**
    try_convert<std::string_view>: yaml-cpp hands out a scalar's own text;
    any other node converts as the converter says.
   */
  function ViewText(file: string, conv: Converter, n: Node): (r: Result<string, string>)
    ensures n.Scalar? ==> r == Ok(n.text)
    ensures !n.Scalar? ==> (r.Err? <==> conv(AsStringView, n).Failed?)
  {
    if n.Scalar? then Ok(n.text)
    else
      match TryConvert(file, conv, AsStringView, n)
      case Err(e) => Err(e)
      case Ok(v) => Ok(TextOf(v))
  }

  /** One element of a repeated field: converted to the element type, or resolved as an enum name. */
  function Element(file: string, conv: Converter, f: Field, n: Node): Result<Value, string>
    requires CppTypeOf(f.kind) != CppMessage
  {
    if f.kind.Enum? then
      match ViewText(file, conv, n)
      case Err(e) => Err(e)
      case Ok(text) =>
        match FindValueByName(f.kind.values, text)
        case None => Err(InvalidEnum(file, text, f.name))
        case Some(number) => Ok(IntV(number))
    else TryConvert(file, conv, ElementTarget(CppTypeOf(f.kind)), n)
  }

  /** What the element loop keeps and what it reports. */
  datatype Batch = Batch(values: seq<Value>, errors: seq<string>)

  /** The loop of parse_array_inner and parse_array_enum over the first elements of a sequence. */
  function ElementBatch(file: string, conv: Converter, f: Field, items: seq<Node>): Batch
    requires CppTypeOf(f.kind) != CppMessage
  {
    if items == [] then Batch([], [])
    else
      var b := ElementBatch(file, conv, f, items[..|items| - 1]);
      match Element(file, conv, f, items[|items| - 1])
      case Ok(v) => Batch(b.values + [v], b.errors)
      case Err(e) => Batch(b.values, b.errors + [e])
  }

  /** The message's fields after a step, and the errors the step reported. */
  datatype Outcome = Outcome(fields: Fields, errors: seq<string>)

  /** parse_array: a repeated field given a sequence. */
  function ArrayStep(file: string, conv: Converter, fields: Fields, items: seq<Node>, f: Field): Outcome
  {
    if CppTypeOf(f.kind) == CppMessage then Outcome(fields, [UnsupportedRepeatedMessage])
    else
      var b := ElementBatch(file, conv, f, items);
      Outcome(fields[f.name := List(b.values)], b.errors)
  }

  /** The type switch for a singular, non-message field given a scalar. */
  function ScalarStep(file: string, conv: Converter, fields: Fields, text: string, n: Node, f: Field): Outcome
    requires !f.kind.Message?
  {
    if f.kind.Bytes? then Outcome(fields, [])
    else if f.kind.Enum? then
      match FindValueByName(f.kind.values, text)
      case None => Outcome(fields, [InvalidEnum(file, text, f.name)])
      case Some(number) => Outcome(fields[f.name := Leaf(IntV(number))], [])
    else
      match TryConvert(file, conv, TargetOf(SwitchSetter(f.kind)), n)
      case Ok(v) => Outcome(fields[f.name := Leaf(v)], [])
      case Err(e) => Outcome(fields, [e])
  }

  /**
    The type switch as written, where TYPE_SINT64 shares the case of
    SetUInt64: the node is converted as uint64_t, and a text that converts
    reaches SetUInt64 on an int64 field, a fatal reflection error (None).
   */
  function ScalarStepAsWritten(file: string, conv: Converter, fields: Fields, text: string, n: Node, f: Field): Option<Outcome>
    requires !f.kind.Message?
  {
    if !Settable(f.kind) then Some(ScalarStep(file, conv, fields, text, n, f))
    else
      var s := SwitchSetterAsWritten(f.kind);
      match TryConvert(file, conv, TargetOf(s), n)
      case Ok(v) => if SetterType(s) != CppTypeOf(f.kind) then None else Some(Outcome(fields[f.name := Leaf(v)], []))
      case Err(e) => Some(Outcome(fields, [e]))
  }

  /** parse(msg, node, field): one field of the schema against the mapping `node`. */
  function FieldStep(file: string, conv: Converter, fields: Fields, node: Node, f: Field): Outcome
    decreases f, 0
  {
    match Lookup(node, f.name)
    case None => Outcome(fields, [])
    case Some(v) =>
      if f.repeated then
        if !v.Sequence? then Outcome(fields, [TypeMismatch(file, f.name, "Sequence", v)])
        else ArrayStep(file, conv, fields, v.items, f)
      else if f.kind.Message? then
        if !v.Map? then Outcome(fields, [TypeMismatch(file, f.name, "Map", v)])
        else
          var c := MessageStep(file, conv, ChildFields(fields, f.name), v, f.kind.schema, |f.kind.schema.fields|);
          Outcome(fields[f.name := Nested(c.fields)], c.errors)
      else if !v.Scalar? then Outcome(fields, [NonScalar(file)])
      else ScalarStep(file, conv, fields, v.text, v, f)
  }

  /** parse(msg, node): the first n fields of the schema, in declaration order, errors concatenated. */
  function MessageStep(file: string, conv: Converter, fields: Fields, node: Node, schema: Schema, n: nat): Outcome
    requires n <= |schema.fields|
    decreases schema, n
  {
    if n == 0 then Outcome(fields, [])
    else
      var prev := MessageStep(file, conv, fields, node, schema, n - 1);
      var step := FieldStep(file, conv, prev.fields, node, schema.fields[n - 1]);
      Outcome(step.fields, prev.errors + step.errors)
  }

  /** The whole document against the whole schema. */
  function DocumentStep(file: string, conv: Converter, fields: Fields, node: Node, schema: Schema): Outcome
  {
    MessageStep(file, conv, fields, node, schema, |schema.fields|)
  }

  // ---------------------------------------------------------------------------
  // The parser

  class ParserYaml {
    const file: string

    constructor (file: string)
      ensures this.file == file
    {
      this.file := file;
    }

    /**
      parse(msg): load the file and walk it. The file system is the map from
      path to loaded document; YAML::LoadFile throws for a path it cannot
      load, and for a document that is a bare scalar `node[name]` throws.
     */
    method ParseFile(msg: Message, files: map<string, Node>, conv: Converter) returns (r: ParserResult)
      requires file in files && !files[file].Scalar?
      modifies msg
      ensures var o := DocumentStep(file, conv, old(msg.fields), files[file], msg.schema);
              msg.fields == o.fields && r == ToResult(o.errors)
    {
      r := Parse(msg, files[file], conv);
    }

    /** parse(msg, node): every field of the message's type, errors gathered in declaration order. */
    method Parse(msg: Message, node: Node, conv: Converter) returns (r: ParserResult)
      requires !node.Scalar?
      modifies msg
      decreases msg.schema, 1
      ensures var o := DocumentStep(file, conv, old(msg.fields), node, msg.schema);
              msg.fields == o.fields && r == ToResult(o.errors)
    {
      var errors: seq<string> := [];
      var schema := msg.schema;
      for i := 0 to |schema.fields|
        invariant var o := MessageStep(file, conv, old(msg.fields), node, schema, i);
                  msg.fields == o.fields && errors == o.errors
      {
        var err := ParseField(msg, node, schema.fields[i], conv);
        ResultRoundTrip(ErrorsOf(err));
        errors := errors + ErrorsOf(err);
      }
      r := ToResult(errors);
    }

    /** parse(msg, node, field). */
    method ParseField(msg: Message, node: Node, f: Field, conv: Converter) returns (r: ParserResult)
      modifies msg
      decreases f, 0
      ensures var o := FieldStep(file, conv, old(msg.fields), node, f);
              msg.fields == o.fields && ErrorsOf(r) == o.errors
    {
      var found := Lookup(node, f.name);
      if found.None? {
        return None;
      }
      var v := found.value;

      if f.repeated {
        if !v.Sequence? {
          var what := MismatchError(f.name, "Sequence", v);
          return Some([what]);
        }
        r := ParseArray(msg, v.items, f, conv);
        return;
      }

      if f.kind.Message? {
        if !v.Map? {
          var what := MismatchError(f.name, "Map", v);
          return Some([what]);
        }
        var m := msg.MutableMessage(f);
        r := Parse(m, v, conv);
        msg.SetMessage(f.name, m);
        return;
      }

      if !v.Scalar? {
        var err := new ParserError.Empty();
        err.Append(Quoted(file));
        err.Append(": Attempting to parse non-scalar field as scalar");
        return Some([err.What()]);
      }
      r := ParseScalar(msg, v, f, conv);
    }

    /** The "Type mismatch" error of a field given the wrong shape of node. */
    method MismatchError(name: string, expected: string, v: Node) returns (what: string)
      ensures what == TypeMismatch(file, name, expected, v)
    {
      var err := new ParserError.Empty();
      err.Append(Quoted(file));
      err.Append(": Type mismatch for '");
      err.Append(name);
      err.Append("' - expected ");
      err.Append(expected);
      err.Append(", got ");
      err.Append(NodeTypeName(v));
      what := err.What();
    }

    /** The "Invalid enum value" error. */
    method InvalidEnumError(text: string, name: string) returns (what: string)
      ensures what == InvalidEnum(file, text, name)
    {
      var err := new ParserError.Empty();
      err.Append(Quoted(file));
      err.Append(": Invalid enum value '");
      err.Append(text);
      err.Append("' for field ");
      err.Append(name);
      what := err.What();
    }

    /** The type switch of parse(msg, node, field) for a singular field given a scalar. */
    method ParseScalar(msg: Message, v: Node, f: Field, conv: Converter) returns (r: ParserResult)
      requires v.Scalar? && !f.kind.Message?
      modifies msg
      ensures var o := ScalarStep(file, conv, old(msg.fields), v.text, v, f);
              msg.fields == o.fields && ErrorsOf(r) == o.errors
    {
      if f.kind.Bytes? {
        r := None;
      } else if f.kind.Enum? {
        var number := FindValueByName(f.kind.values, v.text);
        if number.None? {
          var what := InvalidEnumError(v.text, f.name);
          return Some([what]);
        }
        msg.SetLeaf(f.name, IntV(number.value));
        r := None;
      } else {
        var value := TryConvert(file, conv, TargetOf(SwitchSetter(f.kind)), v);
        if value.Err? {
          return Some([value.error]);
        }
        msg.SetLeaf(f.name, value.value);
        r := None;
      }
    }

    /** parse_array: dispatch on the C++ type of the repeated field. */
    method ParseArray(msg: Message, items: seq<Node>, f: Field, conv: Converter) returns (r: ParserResult)
      modifies msg
      ensures var o := ArrayStep(file, conv, old(msg.fields), items, f);
              msg.fields == o.fields && ErrorsOf(r) == o.errors
    {
      match CppTypeOf(f.kind) {
        case CppMessage =>
          r := Some([UnsupportedRepeatedMessage]);
        case CppEnum =>
          r := ParseArrayEnum(msg, items, f, conv);
        case _ =>
          r := ParseArrayInner(msg, items, f, conv);
      }
    }

    /** parse_array_inner<T>: clear the field, then add every element that converts. */
    method ParseArrayInner(msg: Message, items: seq<Node>, f: Field, conv: Converter) returns (r: ParserResult)
      requires CppTypeOf(f.kind) != CppMessage && CppTypeOf(f.kind) != CppEnum
      modifies msg
      ensures var b := ElementBatch(file, conv, f, items);
              msg.fields == old(msg.fields)[f.name := List(b.values)] && r == ToResult(b.errors)
    {
      var errors: seq<string> := [];
      msg.ClearRepeated(f.name);
      for i := 0 to |items|
        invariant var b := ElementBatch(file, conv, f, items[..i]);
                  msg.fields == old(msg.fields)[f.name := List(b.values)] && errors == b.errors
      {
        assert items[..i + 1][..i] == items[..i];
        var value := TryConvert(file, conv, ElementTarget(CppTypeOf(f.kind)), items[i]);
        if value.Ok? {
          msg.AddRepeated(f.name, value.value);
        } else {
          errors := errors + [value.error];
        }
      }
      assert items[..|items|] == items;
      r := ToResult(errors);
    }

    /** parse_array_enum: clear the field, then add the number of every element that names a value. */
    method ParseArrayEnum(msg: Message, items: seq<Node>, f: Field, conv: Converter) returns (r: ParserResult)
      requires f.kind.Enum?
      modifies msg
      ensures var b := ElementBatch(file, conv, f, items);
              msg.fields == old(msg.fields)[f.name := List(b.values)] && r == ToResult(b.errors)
    {
      var errors: seq<string> := [];
      msg.ClearRepeated(f.name);
      for i := 0 to |items|
        invariant var b := ElementBatch(file, conv, f, items[..i]);
                  msg.fields == old(msg.fields)[f.name := List(b.values)] && errors == b.errors
      {
        assert items[..i + 1][..i] == items[..i];
        var e := EnumElement(items[i], f, conv);
        if e.Ok? {
          msg.AddRepeated(f.name, e.value);
        } else {
          errors := errors + [e.error];
        }
      }
      assert items[..|items|] == items;
      r := ToResult(errors);
    }

    /** The body of parse_array_enum's loop: the element as a string, then its value's number. */
    method EnumElement(n: Node, f: Field, conv: Converter) returns (e: Result<Value, string>)
      requires f.kind.Enum?
      ensures e == Element(file, conv, f, n)
    {
      var v := ViewText(file, conv, n);
      if v.Err? {
        return Err(v.error);
      }
      var name := v.value;
      var number := FindValueByName(f.kind.values, name);
      if number.None? {
        var what := InvalidEnumError(name, f.name);
        return Err(what);
      }
      e := Ok(IntV(number.value));
    }
  }
}
