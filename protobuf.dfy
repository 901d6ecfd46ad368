/**
  What the parsers use of protobuf's reflection: a message schema (Descriptor,
  FieldDescriptor, EnumDescriptor) and a mutable message whose fields the
  parsers set, clear, append to and descend into (Message, Reflection).
 */
module Protobuf {
  import opened Wrappers

  datatype EnumValue = EnumValue(name: string, number: int)

  /** FieldDescriptor::Type; the deprecated TYPE_GROUP is not part of the model. */
  datatype Kind =
    | Double | Float | Int64 | UInt64 | Int32 | Fixed64 | Fixed32 | Bool | String
    | Bytes | UInt32 | SFixed32 | SFixed64 | SInt32 | SInt64
    | Enum(values: seq<EnumValue>)
    | Message(schema: Schema)

  /** A field: its canonical (snake_case) name, its type and whether it is LABEL_REPEATED. */
  datatype Field = Field(name: string, kind: Kind, repeated: bool)

  /** A message type: its fields in declaration order. */
  datatype Schema = Schema(fields: seq<Field>)

  /** Field names are unique among siblings, at every level. */
  predicate UniqueNames(schema: Schema)
    decreases schema
  {
    && (forall i, j :: 0 <= i < j < |schema.fields| ==> schema.fields[i].name != schema.fields[j].name)
    && (forall i :: 0 <= i < |schema.fields| && schema.fields[i].kind.Message? ==>
          UniqueNames(schema.fields[i].kind.schema))
  }

  /** FieldDescriptor::CppType: how a field is stored, and what its repeated-field reference holds. */
  datatype CppType =
    | CppInt32 | CppInt64 | CppUInt32 | CppUInt64 | CppDouble | CppFloat
    | CppBool | CppEnum | CppString | CppMessage

  function CppTypeOf(k: Kind): (r: CppType)
    ensures r == CppMessage <==> k.Message?
    ensures r == CppEnum <==> k.Enum?
    ensures r == CppString <==> k.String? || k.Bytes?
    ensures r == CppBool <==> k.Bool?
    ensures r == CppInt64 <==> k.Int64? || k.SInt64? || k.SFixed64?
  {
    match k
    case Int32 | SInt32 | SFixed32 => CppInt32
    case Int64 | SInt64 | SFixed64 => CppInt64
    case UInt32 | Fixed32 => CppUInt32
    case UInt64 | Fixed64 => CppUInt64
    case Double => CppDouble
    case Float => CppFloat
    case Bool => CppBool
    case Enum(_) => CppEnum
    case String | Bytes => CppString
    case Message(_) => CppMessage
  }

  /** EnumDescriptor::FindValueByName: the number of the value whose name is exactly `name`. */
  function FindValueByName(values: seq<EnumValue>, name: string): (r: Option<int>)
    ensures r.None? <==> forall i :: 0 <= i < |values| ==> values[i].name != name
    ensures r.Some? ==> exists i :: 0 <= i < |values| && values[i].name == name && values[i].number == r.value
  {
    if values == [] then None
    else if values[0].name == name then Some(values[0].number)
    else
      var r := FindValueByName(values[1..], name);
      assert forall i :: 1 <= i < |values| ==> values[i] == values[1..][i - 1];
      r
  }

  // ---------------------------------------------------------------------------
  // The scalar setters: every parser switches on the field type and calls one
  // Reflection::Set* method, which requires its own C++ type of the field.

  datatype Setter = SetDouble | SetFloat | SetInt64 | SetUInt64 | SetUInt32 | SetInt32 | SetBool | SetString

  function SetterType(s: Setter): CppType
  {
    match s
    case SetDouble => CppDouble
    case SetFloat => CppFloat
    case SetInt64 => CppInt64
    case SetUInt64 => CppUInt64
    case SetUInt32 => CppUInt32
    case SetInt32 => CppInt32
    case SetBool => CppBool
    case SetString => CppString
  }

  /** The types for which the scalar switches call a setter. */
  predicate Settable(k: Kind)
  {
    !(k.Bytes? || k.Enum? || k.Message?)
  }

  /** The grouping of cases in the scalar switches as written: TYPE_SINT64 shares the SetUInt64 case. */
  function SwitchSetterAsWritten(k: Kind): (s: Setter)
    requires Settable(k)
    ensures k.SInt64? ==> s == SetUInt64
    ensures !k.SInt64? ==> SetterType(s) == CppTypeOf(k)
  {
    match k
    case Double => SetDouble
    case Float => SetFloat
    case SFixed64 | Int64 => SetInt64
    case SInt64 | Fixed64 | UInt64 => SetUInt64
    case Fixed32 | UInt32 => SetUInt32
    case SInt32 | SFixed32 | Int32 => SetInt32
    case Bool => SetBool
    case String => SetString
  }

  /** The evidently intended grouping: every type reaches the setter of its own C++ type. */
  function SwitchSetter(k: Kind): (s: Setter)
    requires Settable(k)
    ensures SetterType(s) == CppTypeOf(k)
  {
    if k.SInt64? then SetInt64 else SwitchSetterAsWritten(k)
  }

  /**
    As written, a singular sint64 field reaches SetUInt64, whose type check
    rejects an int64 field (protobuf reports a fatal reflection usage error);
    every other settable type reaches a setter of its own C++ type.
   */
  lemma AsWrittenSetterMismatch(k: Kind)
    requires Settable(k)
    ensures SetterType(SwitchSetterAsWritten(k)) == CppTypeOf(k) <==> !k.SInt64?
    ensures !k.SInt64? ==> SwitchSetter(k) == SwitchSetterAsWritten(k)
  {
  }

  // ---------------------------------------------------------------------------
  // Message contents

  /** A leaf value; float and double values are kept abstract as reals. */
  datatype Value = BoolV(b: bool) | IntV(i: int) | RealV(r: real) | StrV(s: string)

  /** What a field holds: a singular value, a repeated field's elements, or a sub-message. */
  datatype Slot = Leaf(value: Value) | List(items: seq<Value>) | Nested(fields: map<string, Slot>)

  /** A message's fields by name; a name that is absent holds its default. */
  type Fields = map<string, Slot>

  /** Two messages' fields agree on the name k: both lack it, or both hold the same slot. */
  predicate SameAt(a: Fields, b: Fields, k: string)
  {
    (k in a <==> k in b) && (k in a ==> a[k] == b[k])
  }

  /** Messages whose fields agree on every name are the same message. */
  lemma SameEverywhere(a: Fields, b: Fields)
    requires forall k :: SameAt(a, b, k)
    ensures a == b
  {
    assert a.Keys == b.Keys by {
      forall k | k in a ensures k in b { assert SameAt(a, b, k); }
      forall k | k in b ensures k in a { assert SameAt(a, b, k); }
    }
    forall k | k in a ensures a[k] == b[k] { assert SameAt(a, b, k); }
  }

  /** The sub-message Reflection::MutableMessage hands out: the present one, or a new empty one. */
  function ChildFields(fields: Fields, name: string): Fields
  {
    if name in fields && fields[name].Nested? then fields[name].fields else map[]
  }

  /** The elements of a repeated field; none when it was never set. */
  function Items(fields: Fields, name: string): seq<Value>
  {
    if name in fields && fields[name].List? then fields[name].items else []
  }

  /** A message being filled in place, with the descriptor of its type. */
  class Message {
    const schema: Schema
    var fields: Fields

    constructor (schema: Schema)
      ensures this.schema == schema && fields == map[]
    {
      this.schema := schema;
      fields := map[];
    }

    constructor FromFields(schema: Schema, f: Fields)
      ensures this.schema == schema && fields == f
    {
      this.schema := schema;
      fields := f;
    }

    /** Reflection::Set*: the field now holds v. */
    method SetLeaf(name: string, v: Value)
      modifies this
      ensures fields == old(fields)[name := Leaf(v)]
    {
      fields := fields[name := Leaf(v)];
    }

    /** MutableRepeatedFieldRef::Clear. */
    method ClearRepeated(name: string)
      modifies this
      ensures fields == old(fields)[name := List([])]
    {
      fields := fields[name := List([])];
    }

    /** MutableRepeatedFieldRef::Add: v goes to the end. */
    method AddRepeated(name: string, v: Value)
      modifies this
      ensures fields == old(fields)[name := List(Items(old(fields), name) + [v])]
    {
      fields := fields[name := List(Items(fields, name) + [v])];
    }

    /** Reflection::MutableMessage, as a copy of the sub-message that SetMessage writes back. */
    method MutableMessage(f: Field) returns (child: Message)
      requires f.kind.Message?
      ensures fresh(child)
      ensures child.schema == f.kind.schema && child.fields == ChildFields(fields, f.name)
    {
      child := new Message.FromFields(f.kind.schema, ChildFields(fields, f.name));
    }

    method SetMessage(name: string, child: Message)
      requires child != this
      modifies this
      ensures fields == old(fields)[name := Nested(child.fields)]
    {
      fields := fields[name := Nested(child.fields)];
    }
  }
}
