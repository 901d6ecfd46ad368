/**
  Case conversion between camelCase and snake_case identifiers
  (config_much::case_convert). Characters are classified and converted the
  way the C library does in the "C" locale: only the ASCII letters have a case.
 */
module CaseConvert {

  predicate IsUpper(c: char) { 'A' <= c <= 'Z' }

  predicate IsLower(c: char) { 'a' <= c <= 'z' }

  /** std::toupper in the C locale. */
  function ToUpper(c: char): (r: char)
    ensures !IsLower(r)
    ensures IsUpper(c) || IsLower(c) || r == c
  {
    if IsLower(c) then (c as int - 'a' as int + 'A' as int) as char else c
  }

  /** std::tolower in the C locale. */
  function ToLower(c: char): (r: char)
    ensures !IsUpper(r)
    ensures IsUpper(c) || IsLower(c) || r == c
  {
    if IsUpper(c) then (c as int - 'A' as int + 'a' as int) as char else c
  }

  lemma CaseRoundTrip(c: char)
    ensures IsUpper(c) ==> ToUpper(ToLower(c)) == c
    ensures IsLower(c) ==> ToLower(ToUpper(c)) == c
    ensures ToUpper(ToLower(c)) == ToUpper(c)
    ensures ToUpper(ToUpper(c)) == ToUpper(c)
    ensures !IsUpper(c) ==> ToLower(c) == c
  {
  }

  // ---------------------------------------------------------------------------
  // Specification functions

  /** The string all_caps returns: every character through toupper. */
  function AllCapsOf(s: string): (r: string)
    ensures |r| == |s|
    ensures forall i :: 0 <= i < |s| ==> r[i] == ToUpper(s[i])
  {
    seq(|s|, i requires 0 <= i < |s| => ToUpper(s[i]))
  }

  function Recase(c: char, capitalize: bool): char {
    if capitalize then ToUpper(c) else ToLower(c)
  }

  /** What camel_to_snake appends for character c, where `first` says whether it is the first one. */
  function SnakePiece(c: char, first: bool, capitalize: bool): string {
    (if !first && IsUpper(c) then "_" else "") + [Recase(c, capitalize)]
  }

  /** The string camel_to_snake(s, capitalize) returns, defined on ever longer prefixes, as the loop builds it. */
  function SnakeOf(s: string, capitalize: bool): string
  {
    if s == [] then []
    else SnakeOf(s[..|s| - 1], capitalize) + SnakePiece(s[|s| - 1], |s| == 1, capitalize)
  }

  /** The string snake_to_camel(s) returns: an '_' is dropped and raises the next character. */
  function CamelOf(s: string): string
  {
    if s == [] then []
    else if s[|s| - 1] == '_' then CamelOf(s[..|s| - 1])
    else CamelOf(s[..|s| - 1]) + [if |s| > 1 && s[|s| - 2] == '_' then ToUpper(s[|s| - 1]) else s[|s| - 1]]
  }

  /** The number of upper-case characters of s after its first one. */
  function UppersAfterFirst(s: string): nat
  {
    if |s| <= 1 then 0
    else UppersAfterFirst(s[..|s| - 1]) + (if IsUpper(s[|s| - 1]) then 1 else 0)
  }

  function Count(c: char, s: string): nat
  {
    if s == [] then 0 else Count(c, s[..|s| - 1]) + (if s[|s| - 1] == c then 1 else 0)
  }

  // ---------------------------------------------------------------------------
  // The three operations, as the loops of case-convert.cpp

  /** all_caps: size the output like the input, then transform every character in place. */
  method AllCaps(input: string) returns (out: string)
    ensures out == AllCapsOf(input)
  {
    var buf := new char[|input|];
    for i := 0 to |input|
      invariant forall j :: 0 <= j < i ==> buf[j] == ToUpper(input[j])
    {
      buf[i] := ToUpper(input[i]);
    }
    out := buf[..];
  }

  /** snake_to_camel: drop every '_' and upper-case the character after it. */
  method SnakeToCamel(input: string) returns (out: string)
    ensures out == CamelOf(input)
  {
    out := [];
    var capitalize := false;
    for i := 0 to |input|
      invariant out == CamelOf(input[..i])
      invariant capitalize <==> i > 0 && input[i - 1] == '_'
    {
      assert input[..i + 1][..i] == input[..i];
      var c := input[i];
      if c == '_' {
        capitalize := true;
      } else {
        out := out + [if capitalize then ToUpper(c) else c];
        capitalize := false;
      }
    }
    assert input[..|input|] == input;
  }

  /** camel_to_snake: put an '_' before every upper-case character but the first, and re-case everything. */
  method CamelToSnake(input: string, capitalize: bool) returns (out: string)
    ensures out == SnakeOf(input, capitalize)
  {
    out := [];
    var first := true;
    for i := 0 to |input|
      invariant out == SnakeOf(input[..i], capitalize)
      invariant first <==> i == 0
    {
      assert input[..i + 1][..i] == input[..i];
      var c := input[i];
      if !first && IsUpper(c) {
        out := out + "_";
      }
      out := out + [Recase(c, capitalize)];
      first := false;
    }
    assert input[..|input|] == input;
  }

  // ---------------------------------------------------------------------------
  // Properties

  lemma AllCapsIdempotent(s: string)
    ensures AllCapsOf(AllCapsOf(s)) == AllCapsOf(s)
  {
  }

  lemma {:induction false} SnakeLength(s: string, capitalize: bool)
    ensures |SnakeOf(s, capitalize)| == |s| + UppersAfterFirst(s)
  {
    if s != [] {
      SnakeLength(s[..|s| - 1], capitalize);
    }
  }

  /** The offset in camel_to_snake's output at which the character s[i] lands. */
  function SnakeOffset(s: string, i: nat): nat
    requires i < |s|
  {
    i + UppersAfterFirst(s[..i + 1])
  }

  /**
    Every character of s lands, re-cased, at SnakeOffset, and each upper-case
    character after the first is immediately preceded by an '_'.
   */
  lemma {:induction false} SnakePositions(s: string, capitalize: bool, i: nat)
    requires i < |s|
    ensures SnakeOffset(s, i) < |SnakeOf(s, capitalize)|
    ensures SnakeOf(s, capitalize)[SnakeOffset(s, i)] == Recase(s[i], capitalize)
    ensures i > 0 && IsUpper(s[i]) ==> SnakeOf(s, capitalize)[SnakeOffset(s, i) - 1] == '_'
  {
    var init := s[..|s| - 1];
    SnakeLength(s, capitalize);
    SnakeLength(init, capitalize);
    if i < |s| - 1 {
      assert s[..i + 1] == init[..i + 1];
      SnakePositions(init, capitalize, i);
    } else {
      assert s[..i + 1] == s;
      if i > 0 {
        assert s[..i] == init;
      }
    }
  }

  lemma {:induction false} SnakeCaseOfLetters(s: string, capitalize: bool)
    ensures !capitalize ==> forall c :: c in SnakeOf(s, capitalize) ==> !IsUpper(c)
    ensures capitalize ==> forall c :: c in SnakeOf(s, capitalize) ==> !IsLower(c)
  {
    if s != [] {
      SnakeCaseOfLetters(s[..|s| - 1], capitalize);
    }
  }

  /** camel_to_snake(s, true) is all_caps of camel_to_snake(s, false). */
  lemma {:induction false} SnakeUpperIsAllCaps(s: string)
    ensures SnakeOf(s, true) == AllCapsOf(SnakeOf(s, false))
  {
    if s != [] {
      var init := s[..|s| - 1];
      SnakeUpperIsAllCaps(init);
      var c := s[|s| - 1];
      CaseRoundTrip(c);
      var a, b := SnakeOf(init, false), SnakePiece(c, |s| == 1, false);
      assert AllCapsOf(a + b) == AllCapsOf(a) + AllCapsOf(b);
    }
  }

  lemma {:induction false} CamelShape(s: string)
    ensures '_' !in CamelOf(s)
    ensures |CamelOf(s)| == |s| - Count('_', s)
  {
    if s != [] {
      CamelShape(s[..|s| - 1]);
    }
  }

  lemma {:induction false} SnakeIdentity(s: string)
    requires forall i :: 0 <= i < |s| ==> !IsUpper(s[i])
    ensures SnakeOf(s, false) == s
  {
    if s != [] {
      SnakeIdentity(s[..|s| - 1]);
      CaseRoundTrip(s[|s| - 1]);
    }
  }

  lemma {:induction false} CamelIdentity(s: string)
    requires '_' !in s
    ensures CamelOf(s) == s
  {
    if s != [] {
      CamelIdentity(s[..|s| - 1]);
    }
  }

  lemma {:induction false} SnakeLast(s: string, capitalize: bool)
    requires s != []
    ensures SnakeOf(s, capitalize) != []
    ensures SnakeOf(s, capitalize)[|SnakeOf(s, capitalize)| - 1] == Recase(s[|s| - 1], capitalize)
  {
  }

  /** snake_to_camel undoes camel_to_snake on a camelCase identifier. */
  lemma {:induction false} CamelSnakeRoundTrip(s: string)
    requires '_' !in s
    requires s == [] || !IsUpper(s[0])
    ensures CamelOf(SnakeOf(s, false)) == s
  {
    if s != [] {
      var init, c := s[..|s| - 1], s[|s| - 1];
      CamelSnakeRoundTrip(init);
      var a := SnakeOf(init, false);
      CaseRoundTrip(c);
      if |s| == 1 {
        assert SnakeOf(s, false) == [ToLower(c)];
      } else {
        SnakeLast(init, false);
        CaseRoundTrip(init[|init| - 1]);
        assert a[|a| - 1] != '_';
        if IsUpper(c) {
          var t := a + "_" + [ToLower(c)];
          assert SnakeOf(s, false) == t;
          assert t[..|t| - 1] == a + "_";
          assert (a + "_")[..|a|] == a;
          assert CamelOf(a + "_") == CamelOf(a);
          assert t[|t| - 2] == '_';
          assert CamelOf(t) == CamelOf(a) + [ToUpper(ToLower(c))];
        } else {
          var t := a + [ToLower(c)];
          assert t[..|t| - 1] == a;
        }
      }
    }
  }

  // Examples from the unit tests

  lemma SnakeStep(s: string, c: char, t: string, capitalize: bool)
    requires t == s + [c]
    ensures SnakeOf(t, capitalize) == SnakeOf(s, capitalize) + SnakePiece(c, s == [], capitalize)
  {
    assert t[..|s|] == s;
  }

  lemma CamelStep(s: string, c: char, t: string)
    requires t == s + [c]
    ensures CamelOf(t) == if c == '_' then CamelOf(s)
                          else CamelOf(s) + [if s != [] && s[|s| - 1] == '_' then ToUpper(c) else c]
  {
    assert t[..|s|] == s;
  }

  /** camel_to_snake("camelCase") is "camel_case", or "CAMEL_CASE" when capitalizing. */
  lemma SnakeExample(capitalize: bool)
    ensures SnakeOf("camelCase", capitalize) == if capitalize then "CAMEL_CASE" else "camel_case"
  {
    if capitalize {
      SnakeCamelCaseUpper();
    } else {
      SnakeCamelCaseLower();
    }
  }

  lemma SnakeCamelCaseUpper()
    ensures SnakeOf("camelCase", true) == "CAMEL_CASE"
  {
    SnakeStep("", 'c', "c", true);
    SnakeStep("c", 'a', "ca", true);
    SnakeStep("ca", 'm', "cam", true);
    SnakeStep("cam", 'e', "came", true);
    SnakeStep("came", 'l', "camel", true);
    SnakeStep("camel", 'C', "camelC", true);
    SnakeStep("camelC", 'a', "camelCa", true);
    SnakeStep("camelCa", 's', "camelCas", true);
    SnakeStep("camelCas", 'e', "camelCase", true);
  }

  lemma SnakeCamelCaseLower()
    ensures SnakeOf("camelCase", false) == "camel_case"
  {
    SnakeStep("", 'c', "c", false);
    SnakeStep("c", 'a', "ca", false);
    SnakeStep("ca", 'm', "cam", false);
    SnakeStep("cam", 'e', "came", false);
    SnakeStep("came", 'l', "camel", false);
    SnakeStep("camel", 'C', "camelC", false);
    SnakeStep("camelC", 'a', "camelCa", false);
    SnakeStep("camelCa", 's', "camelCas", false);
    SnakeStep("camelCas", 'e', "camelCase", false);
  }

  /** snake_to_camel("camel_case") is "camelCase". */
  lemma CamelExample()
    ensures CamelOf("camel_case") == "camelCase"
  {
    CamelKnown("", 'c', "c", "", "c");
    CamelKnown("c", 'a', "ca", "c", "ca");
    CamelKnown("ca", 'm', "cam", "ca", "cam");
    CamelKnown("cam", 'e', "came", "cam", "came");
    CamelKnown("came", 'l', "camel", "came", "camel");
    CamelKnown("camel", '_', "camel_", "camel", "camel");
    CamelKnown("camel_", 'c', "camel_c", "camel", "camelC");
    CamelKnown("camel_c", 'a', "camel_ca", "camelC", "camelCa");
    CamelKnown("camel_ca", 's', "camel_cas", "camelCa", "camelCas");
    CamelKnown("camel_cas", 'e', "camel_case", "camelCas", "camelCase");
  }

  /** One step of snake_to_camel with the outcome of the steps before it known. */
  lemma CamelKnown(s: string, c: char, t: string, before: string, after: string)
    requires t == s + [c] && CamelOf(s) == before
    requires after == if c == '_' then before
                      else before + [if s != [] && s[|s| - 1] == '_' then ToUpper(c) else c]
    ensures CamelOf(t) == after
  {
    CamelStep(s, c, t);
  }

}
