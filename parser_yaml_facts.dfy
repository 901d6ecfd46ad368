/**
  What the YAML walk guarantees: which fields a document touches, how the
  errors are gathered, and what each kind of field ends up holding.
 */
module ParserYamlFacts {
  import opened Wrappers
  import opened Protobuf
  import opened YamlTree
  import opened ParserErrors
  import opened ParserYaml

  // ---------------------------------------------------------------------------
  // Error messages

  /** Reading std::quoted's inside back: a '\\' before '"' or '\\' is dropped. */
  function Unescape(t: string): string
  {
    if t == [] then []
    else if |t| >= 2 && t[|t| - 2] == '\\' && (t[|t| - 1] == '"' || t[|t| - 1] == '\\') then
      Unescape(t[..|t| - 2]) + [t[|t| - 1]]
    else Unescape(t[..|t| - 1]) + [t[|t| - 1]]
  }

  lemma UnescapeStep(p: string, c: char)
    ensures Unescape(p + EscapeChar(c)) == Unescape(p) + [c]
  {
    var t := p + EscapeChar(c);
    if c == '"' || c == '\\' {
      assert t[..|t| - 2] == p;
    } else {
      assert t[..|t| - 1] == p;
    }
  }

  /** The escaped text reads back as the original, and is never shorter. */
  lemma {:induction false} EscapeRoundTrip(s: string)
    ensures Unescape(Escape(s)) == s && |s| <= |Escape(s)|
  {
    if s != [] {
      var p, c := s[..|s| - 1], s[|s| - 1];
      EscapeRoundTrip(p);
      UnescapeStep(Escape(p), c);
      assert Escape(s) == Escape(p) + EscapeChar(c);
      assert s == p + [c];
    }
  }

  /** A path as std::quoted writes it: between quotes, with an inside that reads back as the path. */
  lemma QuotedShape(path: string)
    ensures var r := Quoted(path);
            |r| >= 2 && r[0] == '"' && r[|r| - 1] == '"' && Unescape(r[1..|r| - 1]) == path
  {
    var r := Quoted(path);
    assert r[1..|r| - 1] == Escape(path);
    EscapeRoundTrip(path);
  }

  /** wrap_error: the quoted file first, the exception's message last. */
  lemma WrapErrorShape(file: string, what: string)
    ensures var r := WrapError(file, what);
            && |r| == |Quoted(file)| + 2 + |what|
            && r[..|Quoted(file)|] == Quoted(file)
            && r[|r| - |what|..] == what
  {
    var r := WrapError(file, what);
    assert r[..|Quoted(file)|] == Quoted(file);
    assert r[|r| - |what|..] == what;
  }

  /** node_type_to_string names every kind of node by its own name. */
  lemma NodeTypeNames(n: Node)
    ensures NodeTypeName(n) == "Null" <==> n.Null?
    ensures NodeTypeName(n) == "Scalar" <==> n.Scalar?
    ensures NodeTypeName(n) == "Sequence" <==> n.Sequence?
    ensures NodeTypeName(n) == "Map" <==> n.Map?
  {
  }

  // ---------------------------------------------------------------------------
  // Which fields a document touches

  /** A field whose name the mapping lacks is skipped: nothing changes and nothing is reported. */
  lemma AbsentFieldSkipped(file: string, conv: Converter, fields: Fields, node: Node, f: Field)
    requires Lookup(node, f.name).None?
    ensures FieldStep(file, conv, fields, node, f) == Outcome(fields, [])
  {
  }

  /** One field's step changes at most the slot of that field's own name. */
  lemma FieldStepLocal(file: string, conv: Converter, fields: Fields, node: Node, f: Field, k: string)
    requires k != f.name
    ensures SameAt(FieldStep(file, conv, fields, node, f).fields, fields, k)
  {
  }

  /**
    A later document overrides only what it mentions: a key that the mapping
    does not contain, or that no field of the schema is called, keeps its
    slot through the whole walk.
   */
  lemma {:induction false} UnmentionedKept(file: string, conv: Converter, fields: Fields, node: Node,
                                           schema: Schema, n: nat, k: string)
    requires n <= |schema.fields|
    requires Lookup(node, k).None? || forall i :: 0 <= i < n ==> schema.fields[i].name != k
    ensures SameAt(MessageStep(file, conv, fields, node, schema, n).fields, fields, k)
  {
    if n > 0 {
      UnmentionedKept(file, conv, fields, node, schema, n - 1, k);
      var prev := MessageStep(file, conv, fields, node, schema, n - 1);
      var g := schema.fields[n - 1];
      if g.name == k {
        AbsentFieldSkipped(file, conv, prev.fields, node, g);
      } else {
        FieldStepLocal(file, conv, prev.fields, node, g, k);
      }
    }
  }

  // ---------------------------------------------------------------------------
  // How errors are gathered

  /** The errors a field reports depend on the document and the schema, not on what the message held. */
  lemma {:induction false} FieldErrorsIndependent(file: string, conv: Converter, a: Fields, b: Fields, node: Node, f: Field)
    ensures FieldStep(file, conv, a, node, f).errors == FieldStep(file, conv, b, node, f).errors
    decreases f, 0
  {
    match Lookup(node, f.name)
    case None =>
    case Some(v) =>
      if !f.repeated && f.kind.Message? && v.Map? {
        MessageErrorsIndependent(file, conv, ChildFields(a, f.name), ChildFields(b, f.name), v,
                                 f.kind.schema, |f.kind.schema.fields|);
      }
  }

  lemma {:induction false} MessageErrorsIndependent(file: string, conv: Converter, a: Fields, b: Fields, node: Node,
                                                    schema: Schema, n: nat)
    requires n <= |schema.fields|
    ensures MessageStep(file, conv, a, node, schema, n).errors == MessageStep(file, conv, b, node, schema, n).errors
    decreases schema, n
  {
    if n > 0 {
      MessageErrorsIndependent(file, conv, a, b, node, schema, n - 1);
      FieldErrorsIndependent(file, conv, MessageStep(file, conv, a, node, schema, n - 1).fields,
                             MessageStep(file, conv, b, node, schema, n - 1).fields, node, schema.fields[n - 1]);
    }
  }

  /** What field f reports on its own, against an empty message. */
  function ReportOf(file: string, conv: Converter, node: Node, f: Field): seq<string>
  {
    FieldStep(file, conv, map[], node, f).errors
  }

  /** The reports of the first n fields, one after the other in declaration order. */
  function Reports(file: string, conv: Converter, node: Node, schema: Schema, n: nat): seq<string>
    requires n <= |schema.fields|
  {
    if n == 0 then [] else Reports(file, conv, node, schema, n - 1) + ReportOf(file, conv, node, schema.fields[n - 1])
  }

  /**
    The walk never stops early: its errors are every field's own report,
    concatenated in declaration order, whatever the message held before.
   */
  lemma {:induction false} ErrorsInDeclarationOrder(file: string, conv: Converter, fields: Fields, node: Node,
                                                    schema: Schema, n: nat)
    requires n <= |schema.fields|
    ensures MessageStep(file, conv, fields, node, schema, n).errors == Reports(file, conv, node, schema, n)
  {
    if n > 0 {
      var prev := MessageStep(file, conv, fields, node, schema, n - 1);
      ErrorsInDeclarationOrder(file, conv, fields, node, schema, n - 1);
      FieldErrorsIndependent(file, conv, prev.fields, map[], node, schema.fields[n - 1]);
      assert FieldStep(file, conv, prev.fields, node, schema.fields[n - 1]).errors
             == ReportOf(file, conv, node, schema.fields[n - 1]);
    }
  }

  /** parse(msg, node) reports nothing exactly when no field reports anything. */
  lemma {:induction false} CleanIffEveryFieldClean(file: string, conv: Converter, fields: Fields, node: Node, schema: Schema)
    ensures ToResult(DocumentStep(file, conv, fields, node, schema).errors).None?
            <==> forall i :: 0 <= i < |schema.fields| ==> ReportOf(file, conv, node, schema.fields[i]) == []
  {
    ErrorsInDeclarationOrder(file, conv, fields, node, schema, |schema.fields|);
    ReportsEmpty(file, conv, node, schema, |schema.fields|);
  }

  lemma ReportsEmpty(file: string, conv: Converter, node: Node, schema: Schema, n: nat)
    requires n <= |schema.fields|
    ensures Reports(file, conv, node, schema, n) == [] <==> forall i :: 0 <= i < n ==> ReportOf(file, conv, node, schema.fields[i]) == []
  {
    var parts := ReportList(file, conv, node, schema, n);
    ReportsFlatten(file, conv, node, schema, n);
    FlattenEmpty(parts);
  }

  /** Each of the first n fields' own report, in declaration order. */
  function ReportList(file: string, conv: Converter, node: Node, schema: Schema, n: nat): (parts: seq<seq<string>>)
    requires n <= |schema.fields|
    ensures |parts| == n && forall i :: 0 <= i < n ==> parts[i] == ReportOf(file, conv, node, schema.fields[i])
  {
    if n == 0 then [] else ReportList(file, conv, node, schema, n - 1) + [ReportOf(file, conv, node, schema.fields[n - 1])]
  }

  lemma {:induction false} ReportsFlatten(file: string, conv: Converter, node: Node, schema: Schema, n: nat)
    requires n <= |schema.fields|
    ensures Reports(file, conv, node, schema, n) == Flatten(ReportList(file, conv, node, schema, n))
  {
    if n > 0 {
      ReportsFlatten(file, conv, node, schema, n - 1);
      var parts := ReportList(file, conv, node, schema, n);
      assert parts[..n - 1] == ReportList(file, conv, node, schema, n - 1);
    }
  }

  /** A list of lists, concatenated in order. */
  function Flatten(parts: seq<seq<string>>): seq<string>
  {
    if parts == [] then [] else Flatten(parts[..|parts| - 1]) + parts[|parts| - 1]
  }

  lemma {:induction false} FlattenEmpty(parts: seq<seq<string>>)
    ensures Flatten(parts) == [] <==> forall i :: 0 <= i < |parts| ==> parts[i] == []
  {
    if parts != [] {
      var p := parts[..|parts| - 1];
      FlattenEmpty(p);
      assert forall i :: 0 <= i < |p| ==> p[i] == parts[i];
    }
  }

  // ---------------------------------------------------------------------------
  // Repeated fields

  /** Converting a + c is converting a, then going on with c: a failing element stops nothing. */
  lemma {:induction false} BatchAppend(file: string, conv: Converter, f: Field, a: seq<Node>, c: seq<Node>)
    requires CppTypeOf(f.kind) != CppMessage
    ensures var ba, bc := ElementBatch(file, conv, f, a), ElementBatch(file, conv, f, c);
            ElementBatch(file, conv, f, a + c) == Batch(ba.values + bc.values, ba.errors + bc.errors)
    decreases |c|
  {
    if c != [] {
      var c' := c[..|c| - 1];
      assert (a + c)[..|a + c| - 1] == a + c';
      assert (a + c)[|a + c| - 1] == c[|c| - 1];
      BatchAppend(file, conv, f, a, c');
    } else {
      assert a + c == a;
    }
  }

  /**
    Every element ends up either kept or reported, never both; the field is
    clean exactly when every element converts, and then it holds every
    element's value, in order.
   */
  lemma {:induction false} BatchAccounts(file: string, conv: Converter, f: Field, items: seq<Node>)
    requires CppTypeOf(f.kind) != CppMessage
    ensures var b := ElementBatch(file, conv, f, items);
            && |b.values| + |b.errors| == |items|
            && (b.errors == [] <==> forall i :: 0 <= i < |items| ==> Element(file, conv, f, items[i]).Ok?)
            && (b.errors == [] ==> forall i :: 0 <= i < |items| ==> b.values[i] == Element(file, conv, f, items[i]).value)
  {
    BatchCount(file, conv, f, items);
    BatchClean(file, conv, f, items);
    if ElementBatch(file, conv, f, items).errors == [] {
      BatchValues(file, conv, f, items);
    }
  }

  lemma {:induction false} BatchCount(file: string, conv: Converter, f: Field, items: seq<Node>)
    requires CppTypeOf(f.kind) != CppMessage
    ensures |ElementBatch(file, conv, f, items).values| + |ElementBatch(file, conv, f, items).errors| == |items|
  {
    if items != [] {
      BatchCount(file, conv, f, items[..|items| - 1]);
    }
  }

  lemma {:induction false} BatchClean(file: string, conv: Converter, f: Field, items: seq<Node>)
    requires CppTypeOf(f.kind) != CppMessage
    ensures ElementBatch(file, conv, f, items).errors == []
            <==> forall i :: 0 <= i < |items| ==> Element(file, conv, f, items[i]).Ok?
  {
    if items != [] {
      var p := items[..|items| - 1];
      BatchClean(file, conv, f, p);
      assert forall i :: 0 <= i < |p| ==> items[i] == p[i];
    }
  }

  lemma {:induction false} BatchValues(file: string, conv: Converter, f: Field, items: seq<Node>)
    requires CppTypeOf(f.kind) != CppMessage
    requires forall i :: 0 <= i < |items| ==> Element(file, conv, f, items[i]).Ok?
    ensures |ElementBatch(file, conv, f, items).values| == |items|
    ensures forall i :: 0 <= i < |items| ==>
              ElementBatch(file, conv, f, items).values[i] == Element(file, conv, f, items[i]).value
  {
    if items != [] {
      var p := items[..|items| - 1];
      var e := Element(file, conv, f, items[|items| - 1]);
      assert forall i :: 0 <= i < |p| ==> items[i] == p[i];
      BatchValues(file, conv, f, p);
      var vs := ElementBatch(file, conv, f, items).values;
      assert vs == ElementBatch(file, conv, f, p).values + [e.value];
      forall i | 0 <= i < |items|
        ensures vs[i] == Element(file, conv, f, items[i]).value
      {
        if i < |p| {
          assert vs[i] == ElementBatch(file, conv, f, p).values[i];
        }
      }
    }
  }

  /**
    A repeated field given a sequence is replaced, not appended to: what it
    held before plays no part, and it ends up holding exactly the elements
    that convert.
   */
  lemma RepeatedReplaced(file: string, conv: Converter, a: Fields, b: Fields, node: Node, f: Field)
    requires f.repeated && CppTypeOf(f.kind) != CppMessage
    requires Lookup(node, f.name).Some? && Lookup(node, f.name).value.Sequence?
    ensures var oa, ob := FieldStep(file, conv, a, node, f), FieldStep(file, conv, b, node, f);
            && f.name in oa.fields && f.name in ob.fields
            && oa.fields[f.name] == ob.fields[f.name]
            && oa.fields[f.name] == List(ElementBatch(file, conv, f, Lookup(node, f.name).value.items).values)
  {
  }

  /** A repeated message field is not supported: one error, nothing changes. */
  lemma RepeatedMessageUnsupported(file: string, conv: Converter, fields: Fields, node: Node, f: Field)
    requires f.repeated && f.kind.Message?
    requires Lookup(node, f.name).Some? && Lookup(node, f.name).value.Sequence?
    ensures FieldStep(file, conv, fields, node, f) == Outcome(fields, ["Unsupport repeated type MESSAGE"])
  {
  }

  // ---------------------------------------------------------------------------
  // Shape mismatches

  /** A repeated field given anything but a sequence is reported once and left as it was. */
  lemma SequenceExpected(file: string, conv: Converter, fields: Fields, node: Node, f: Field)
    requires f.repeated && Lookup(node, f.name).Some? && !Lookup(node, f.name).value.Sequence?
    ensures FieldStep(file, conv, fields, node, f)
            == Outcome(fields, [TypeMismatch(file, f.name, "Sequence", Lookup(node, f.name).value)])
  {
  }

  /** A singular message field given anything but a mapping is reported once and left as it was. */
  lemma MapExpected(file: string, conv: Converter, fields: Fields, node: Node, f: Field)
    requires !f.repeated && f.kind.Message? && Lookup(node, f.name).Some? && !Lookup(node, f.name).value.Map?
    ensures FieldStep(file, conv, fields, node, f)
            == Outcome(fields, [TypeMismatch(file, f.name, "Map", Lookup(node, f.name).value)])
  {
  }

  /** Any other singular field given a sequence, a mapping or null is reported once and left as it was. */
  lemma ScalarExpected(file: string, conv: Converter, fields: Fields, node: Node, f: Field)
    requires !f.repeated && !f.kind.Message? && Lookup(node, f.name).Some? && !Lookup(node, f.name).value.Scalar?
    ensures FieldStep(file, conv, fields, node, f) == Outcome(fields, [NonScalar(file)])
  {
  }

  // ---------------------------------------------------------------------------
  // Singular scalar fields

  /**
    A settable field given a scalar: a failed conversion is reported as the
    file, ": " and the exception's message, and the field keeps its value;
    a successful one sets the field to the converted value.
   */
  lemma ScalarConverted(file: string, conv: Converter, fields: Fields, node: Node, f: Field)
    requires !f.repeated && Settable(f.kind)
    requires Lookup(node, f.name).Some? && Lookup(node, f.name).value.Scalar?
    ensures var c := conv(TargetOf(SwitchSetter(f.kind)), Lookup(node, f.name).value);
            var o := FieldStep(file, conv, fields, node, f);
            && (c.Failed? ==> o == Outcome(fields, [Quoted(file) + ": " + c.what]))
            && (c.Converted? ==> o == Outcome(fields[f.name := Leaf(c.value)], []))
  {
  }

  /**
    An enum field given a scalar is matched by its exact text against the
    value names: a match sets the field to that value's number, a miss is
    reported and the field keeps its value.
   */
  lemma EnumByExactName(file: string, conv: Converter, fields: Fields, node: Node, f: Field)
    requires !f.repeated && f.kind.Enum?
    requires Lookup(node, f.name).Some? && Lookup(node, f.name).value.Scalar?
    ensures var text := Lookup(node, f.name).value.text;
            var o := FieldStep(file, conv, fields, node, f);
            && ((forall i :: 0 <= i < |f.kind.values| ==> f.kind.values[i].name != text) <==>
                o == Outcome(fields, [Quoted(file) + ": Invalid enum value '" + text + "' for field " + f.name]))
            && (o.errors == [] ==> exists i :: 0 <= i < |f.kind.values| && f.kind.values[i].name == text
                                             && o.fields == fields[f.name := Leaf(IntV(f.kind.values[i].number))])
  {
    var text := Lookup(node, f.name).value.text;
    var o := FieldStep(file, conv, fields, node, f);
    if FindValueByName(f.kind.values, text).Some? {
      assert o.errors == [];
    }
  }

  /**
    The type switch as written parses a singular sint64 scalar as uint64_t:
    a text that does not convert (a negative number, say) gives that
    conversion's error and keeps the field, and one that does reaches
    SetUInt64 and aborts; the field is never set. Every other type behaves as
    in the corrected switch.
   */
  lemma SInt64ScalarAsWritten(file: string, conv: Converter, fields: Fields, text: string, n: Node, f: Field)
    requires !f.kind.Message?
    ensures !f.kind.SInt64? ==>
              ScalarStepAsWritten(file, conv, fields, text, n, f) == Some(ScalarStep(file, conv, fields, text, n, f))
    ensures f.kind.SInt64? ==>
              && (ScalarStepAsWritten(file, conv, fields, text, n, f).None? <==> conv(AsUInt64, n).Converted?)
              && (conv(AsUInt64, n).Failed? ==>
                    ScalarStepAsWritten(file, conv, fields, text, n, f)
                    == Some(Outcome(fields, [WrapError(file, conv(AsUInt64, n).what)])))
  {
    if Settable(f.kind) {
      AsWrittenSetterMismatch(f.kind);
    }
  }

  /** A singular bytes field is not supported: it is left as it was, with no error. */
  lemma BytesUntouched(file: string, conv: Converter, fields: Fields, node: Node, f: Field)
    requires !f.repeated && f.kind.Bytes?
    requires Lookup(node, f.name).Some? && Lookup(node, f.name).value.Scalar?
    ensures FieldStep(file, conv, fields, node, f) == Outcome(fields, [])
  {
  }

  // ---------------------------------------------------------------------------
  // Nested messages

  /** Inside a nested message too, the errors are the sub-fields' own reports in declaration order. */
  lemma NestedErrorsInOrder(file: string, conv: Converter, fields: Fields, node: Node, f: Field)
    requires !f.repeated && f.kind.Message?
    requires Lookup(node, f.name).Some? && Lookup(node, f.name).value.Map?
    ensures FieldStep(file, conv, fields, node, f).errors
            == Reports(file, conv, Lookup(node, f.name).value, f.kind.schema, |f.kind.schema.fields|)
  {
    ErrorsInDeclarationOrder(file, conv, ChildFields(fields, f.name), Lookup(node, f.name).value,
                             f.kind.schema, |f.kind.schema.fields|);
  }

  // ---------------------------------------------------------------------------
  // Loading the same document again

  /** With unique names, field i's slot after the walk is what its own step made of it. */
  lemma {:induction false} MessageStepAt(file: string, conv: Converter, fields: Fields, node: Node,
                                         schema: Schema, n: nat, i: nat)
    requires UniqueNames(schema) && i < n <= |schema.fields|
    ensures SameAt(MessageStep(file, conv, fields, node, schema, n).fields,
                   FieldStep(file, conv, MessageStep(file, conv, fields, node, schema, i).fields, node, schema.fields[i]).fields,
                   schema.fields[i].name)
  {
    if n > i + 1 {
      MessageStepAt(file, conv, fields, node, schema, n - 1, i);
      FieldStepLocal(file, conv, MessageStep(file, conv, fields, node, schema, n - 1).fields, node,
                     schema.fields[n - 1], schema.fields[i].name);
    }
  }

  /**
    A field's step on a message that already holds, in that field's slot,
    what the step made of it elsewhere leaves the slot as it is.
   */
  lemma {:induction false} FieldStepStable(file: string, conv: Converter, a: Fields, b: Fields, node: Node, f: Field)
    requires f.kind.Message? ==> UniqueNames(f.kind.schema)
    requires SameAt(a, FieldStep(file, conv, b, node, f).fields, f.name)
    ensures SameAt(FieldStep(file, conv, a, node, f).fields, FieldStep(file, conv, b, node, f).fields, f.name)
    decreases f, 0
  {
    match Lookup(node, f.name)
    case None =>
    case Some(v) =>
      if !f.repeated && f.kind.Message? && v.Map? {
        var c := MessageStep(file, conv, ChildFields(b, f.name), v, f.kind.schema, |f.kind.schema.fields|);
        assert ChildFields(a, f.name) == c.fields;
        MessageStepIdempotent(file, conv, ChildFields(b, f.name), v, f.kind.schema, |f.kind.schema.fields|);
      }
  }

  /**
    Walking a document over the message it has just produced changes
    nothing and reports the same errors again.
   */
  lemma {:induction false} MessageStepIdempotent(file: string, conv: Converter, fields: Fields, node: Node,
                                                 schema: Schema, n: nat)
    requires UniqueNames(schema) && n <= |schema.fields|
    ensures var once := MessageStep(file, conv, fields, node, schema, n);
            MessageStep(file, conv, once.fields, node, schema, n) == once
    decreases schema, 1
  {
    var once := MessageStep(file, conv, fields, node, schema, n);
    var twice := MessageStep(file, conv, once.fields, node, schema, n);
    MessageErrorsIndependent(file, conv, once.fields, fields, node, schema, n);
    forall k
      ensures SameAt(twice.fields, once.fields, k)
    {
      if i :| 0 <= i < n && schema.fields[i].name == k {
        var p := MessageStep(file, conv, fields, node, schema, i).fields;
        var q := MessageStep(file, conv, once.fields, node, schema, i).fields;
        MessageStepAt(file, conv, fields, node, schema, n, i);
        MessageStepAt(file, conv, once.fields, node, schema, n, i);
        UnmentionedKept(file, conv, once.fields, node, schema, i, k);
        FieldStepStable(file, conv, q, p, node, schema.fields[i]);
      } else {
        UnmentionedKept(file, conv, once.fields, node, schema, n, k);
      }
    }
    SameEverywhere(twice.fields, once.fields);
  }

  /** Parsing the same document a second time gives the same message and the same errors. */
  lemma DocumentStepIdempotent(file: string, conv: Converter, fields: Fields, node: Node, schema: Schema)
    requires UniqueNames(schema)
    ensures var once := DocumentStep(file, conv, fields, node, schema);
            DocumentStep(file, conv, once.fields, node, schema) == once
  {
    MessageStepIdempotent(file, conv, fields, node, schema, |schema.fields|);
  }
}
