/**
  The document tree yaml-cpp hands to the YAML parsers (YAML::Node), and its
  typed conversion `node.as<T>()`, which is kept abstract.
 */
module YamlTree {
  import opened Wrappers
  import opened Protobuf

  /** A node of a loaded document: a mapping keeps its entries in document order. */
  datatype Node = Null | Scalar(text: string) | Sequence(items: seq<Node>) | Map(entries: seq<Entry>)

  datatype Entry = Entry(key: string, value: Node)

  /**
    `node[key]` on a node that is not a scalar: the value of the first entry
    with that key, or nothing (an undefined node) when there is none or the
    node is not a mapping.
   */
  function Lookup(node: Node, key: string): (r: Option<Node>)
    ensures r.None? <==> !node.Map? || forall i :: 0 <= i < |node.entries| ==> node.entries[i].key != key
    ensures r.Some? ==> exists i :: 0 <= i < |node.entries| && node.entries[i].key == key
                                    && node.entries[i].value == r.value
  {
    if node.Map? then Find(node.entries, key) else None
  }

  function Find(entries: seq<Entry>, key: string): (r: Option<Node>)
    ensures r.None? <==> forall i :: 0 <= i < |entries| ==> entries[i].key != key
    ensures r.Some? ==> exists i :: 0 <= i < |entries| && entries[i].key == key && entries[i].value == r.value
  {
    if entries == [] then None
    else if entries[0].key == key then Some(entries[0].value)
    else
      var r := Find(entries[1..], key);
      assert forall i :: 1 <= i < |entries| ==> entries[i] == entries[1..][i - 1];
      r
  }

  /** The types the parsers ask `as<T>` for. */
  datatype Target = AsDouble | AsFloat | AsInt64 | AsUInt64 | AsUInt32 | AsInt32 | AsBool | AsString | AsStringView

  /** The outcome of `as<T>`: the value, or the `what()` of the exception it throws. */
  datatype Conversion = Converted(value: Value) | Failed(what: string)

  /** yaml-cpp's conversion of a node to a C++ type. */
  type Converter = (Target, Node) -> Conversion

  /** The `as<T>` target of each scalar setter. */
  function TargetOf(s: Setter): Target
  {
    match s
    case SetDouble => AsDouble
    case SetFloat => AsFloat
    case SetInt64 => AsInt64
    case SetUInt64 => AsUInt64
    case SetUInt32 => AsUInt32
    case SetInt32 => AsInt32
    case SetBool => AsBool
    case SetString => AsString
  }

  /** The `as<T>` target of the repeated-field reference for each C++ type that parse_array handles. */
  function ElementTarget(t: CppType): Target
    requires t != CppEnum && t != CppMessage
  {
    match t
    case CppInt32 => AsInt32
    case CppUInt32 => AsUInt32
    case CppInt64 => AsInt64
    case CppUInt64 => AsUInt64
    case CppDouble => AsDouble
    case CppFloat => AsFloat
    case CppBool => AsBool
    case CppString => AsString
  }

  /** The text of a converted std::string or std::string_view. */
  function TextOf(v: Value): string
  {
    if v.StrV? then v.s else []
  }
}
