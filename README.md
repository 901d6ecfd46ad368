# config-much, modelled in Dafny

config-much fills a protobuf configuration message from layered sources.
YAML files are applied first, in the order they were added, and then the
process environment. Each source overwrites the fields it mentions.

The model covers the following parts:

- **Case conversion** (`CaseConvert`). These are `all_caps`, `snake_to_camel` and `camel_to_snake`. They are written as loop methods, each proved equal to a specification function. The functions carry the length, shape, identity and round-trip lemmas.
- **Error values** (`ParserErrors`). `ParserError` is a class whose message string is appended to in place. `ParserErrors` and `ParserResult` are a list of errors and an optional list.
- **Reflection** (`Protobuf`). This is the schema (fields with a name, a type, a repeated flag, an enum table and a child schema) and a mutable `Message` with the fields the parsers set, clear, append to and descend into. It also holds the type switch that chooses a `Set*` call.
- **YAML document tree** (`YamlTree`). A node is `Null`, `Scalar`, `Sequence` or `Map`. yaml-cpp's `as<T>` is an abstract conversion that can fail.
- **The YAML parser** (`ParserYaml`). This is the schema walk of `config_much::internal::ParserYaml`. Each `parse` overload is a method proved against a pure specification (`FieldStep`, `MessageStep`, `DocumentStep`) that returns the new fields and the errors, in field-declaration order.
- **The environment parser** (`ParserEnv`). This is `config_much::internal::ParserEnv`. The environment is a map of variable names to texts, and a field's variable is `prefix + "_" + UPPER(snake(name))`. Nested messages recurse with the built name as the prefix. A repeated field probes `NAME_0, NAME_1, …` up to the first unset index.
- **The top-level parser and its `Builder`** (`ConfigMuch`). `Parser::parse` applies every file front to back, then the environment, to one message. That is stated as `ParseResult`, and the lemmas say which source wins.

Text-to-number conversion (yaml-cpp `as<T>`, `std::stoi`, `std::stoull`, `std::stod`, …) is a parameter. YAML document loading is a map from file name to tree, and `std::getenv` is a map. Where the C++ throws or aborts, the model has a precondition instead; the relevant predicates are named `…Safe`. There is one exception: a singular `sint64` field. Every scalar switch sends it to `SetUInt64`, which is a fatal reflection error on an int64 field. The walks follow the corrected switch instead (see "## Findings"), and the switch as written is modelled beside them.

## Model

| member | source | states |
|---|---|---|
| CaseConvert.ToUpper | src/internal/case-convert.cpp:8 | C-locale `toupper` never yields a lower-case letter and leaves every non-letter alone |
| CaseConvert.ToLower | src/internal/case-convert.cpp:36 | C-locale `tolower` never yields an upper-case letter and leaves every non-letter alone |
| CaseConvert.CaseRoundTrip | src/internal/case-convert.cpp:36 | upper and lower case undo each other on letters; upper-casing is idempotent |
| CaseConvert.AllCapsOf | src/internal/case-convert.cpp:5-10 | `all_caps` keeps the length and maps every character through `toupper` |
| CaseConvert.AllCaps | src/internal/case-convert.cpp:5-10 | the resize-and-transform loop returns exactly `AllCapsOf(input)` |
| CaseConvert.AllCapsIdempotent | src/internal/case-convert.cpp:5-10 | applying `all_caps` twice is the same as applying it once |
| CaseConvert.SnakeToCamel | src/internal/case-convert.cpp:12-26 | the loop with its `capitalize` flag returns exactly `CamelOf(input)`: drop each `_`, upper-case the character after one |
| CaseConvert.CamelToSnake | src/internal/case-convert.cpp:28-41 | the loop with its `first` flag returns exactly `SnakeOf(input, capitalize)` |
| CaseConvert.SnakeLength | src/internal/case-convert.cpp:32-38 | output length = input length + number of upper-case characters after position 0 |
| CaseConvert.SnakePositions | src/internal/case-convert.cpp:32-38 | input character i lands, re-cased, at its offset in the output; an `_` sits right before each upper-case character after position 0 |
| CaseConvert.SnakeCaseOfLetters | src/internal/case-convert.cpp:36 | `capitalize=false` output has no upper-case letter; `capitalize=true` output has no lower-case letter |
| CaseConvert.SnakeUpperIsAllCaps | src/internal/case-convert.cpp:36 | `camel_to_snake(s, true) == all_caps(camel_to_snake(s, false))` for every `s` |
| CaseConvert.CamelShape | src/internal/case-convert.cpp:16-23 | `snake_to_camel` output holds no `_` and is shorter than the input by exactly the number of `_` |
| CaseConvert.SnakeIdentity | src/internal/case-convert.cpp:33-36 | `camel_to_snake` of a string without upper-case letters is the string itself |
| CaseConvert.CamelIdentity | src/internal/case-convert.cpp:17-22 | `snake_to_camel` of a string without `_` is the string itself |
| CaseConvert.SnakeLast | src/internal/case-convert.cpp:36 | the last output character is the last input character, re-cased |
| CaseConvert.CamelSnakeRoundTrip | src/internal/case-convert.cpp:12-41 | `snake_to_camel(camel_to_snake(s)) == s` when `s` has no `_` and does not start upper-case |
| CaseConvert.SnakeStep | src/internal/case-convert.cpp:32-38 | one more input character appends exactly one piece: an optional `_` and the re-cased character |
| CaseConvert.CamelStep | src/internal/case-convert.cpp:16-23 | one more input character appends nothing for `_`, else the character, upper-cased after an `_` |
| CaseConvert.SnakeExample | test/TestCaseConverter.cpp:13 | `camelCase` becomes `camel_case`, or `CAMEL_CASE` with `capitalize` |
| CaseConvert.SnakeCamelCaseUpper | test/TestCaseConverter.cpp:31 | `camel_to_snake("camelCase", true) == "CAMEL_CASE"` |
| CaseConvert.SnakeCamelCaseLower | test/TestCaseConverter.cpp:13 | `camel_to_snake("camelCase") == "camel_case"` |
| CaseConvert.CamelExample | test/TestCaseConverter.cpp:49 | `snake_to_camel("camel_case") == "camelCase"` |
| CaseConvert.CamelKnown | src/internal/case-convert.cpp:16-23 | extending a string whose conversion is known gives the known conversion plus the new character's contribution |
| ParserErrors.ParserError.Empty | include/internal/parser-error.h:12 | a default-constructed error has an empty message |
| ParserErrors.ParserError.constructor | include/internal/parser-error.h:19-20 | an error constructed from `s` holds exactly `s` |
| ParserErrors.ParserError.Append | include/internal/parser-error.h:24-29 | `e << x` appends `x` at the end and leaves the existing message as its prefix |
| ParserErrors.ParserError.What | include/internal/parser-error.h:22 | `what()` hands back the message the error holds |
| ParserErrors.ParserError.Equals | include/internal/parser-error.h:36 | `operator==` holds exactly when the two errors' `what()` texts agree |
| ParserErrors.EqualsIsEquivalence | include/internal/parser-error.h:36 | `operator==` holds exactly when the messages are equal, so it is reflexive, symmetric and transitive |
| ParserErrors.ToResult | include/internal/parser-error.h:42-43 | an error list becomes a result that is empty exactly when there were no errors, and otherwise holds that list |
| ParserErrors.ResultRoundTrip | include/internal/parser-error.h:42-43 | reading the errors back from the result gives the original list |
| Protobuf.FindValueByName | src/internal/parser-yaml.cpp:244-246 | `FindValueByName` finds nothing exactly when no enum value has that exact name, and otherwise finds the number of one that does |
| Protobuf.CppTypeOf | src/internal/parser-yaml.cpp:265-301 | the C++ type is message, enum or bool exactly for those field types; string exactly for string and bytes; int64 exactly for int64, sint64 and sfixed64 |
| Protobuf.SwitchSetterAsWritten | src/internal/parser-yaml.cpp:165-237 | the switch as written sends `sint64` to `SetUInt64`, and every other settable type to the setter of its own C++ type |
| Protobuf.SwitchSetter | src/internal/parser-yaml.cpp:165-237 | the corrected type switch calls, for every settable type, the `Set*` of that field's own C++ type |
| Protobuf.AsWrittenSetterMismatch | src/internal/parser-yaml.cpp:191-200 | the switch as written agrees with the field's C++ type for every type except `TYPE_SINT64`, which reaches `SetUInt64` |
| Protobuf.Message.constructor | src/internal/parser-yaml.cpp:141 | a new message of a type has no field set |
| Protobuf.Message.FromFields | src/internal/parser-yaml.cpp:141 | a message handed out with given contents holds exactly them |
| Protobuf.Message.SetLeaf | src/internal/parser-yaml.cpp:165-237 | `Reflection::Set*` replaces one field's value and nothing else |
| Protobuf.Message.ClearRepeated | src/internal/parser-yaml.cpp:40-41 | `MutableRepeatedFieldRef::Clear` leaves the field an empty list and touches nothing else |
| Protobuf.Message.AddRepeated | src/internal/parser-yaml.cpp:45 | `MutableRepeatedFieldRef::Add` appends one element at the end and touches nothing else |
| Protobuf.Message.MutableMessage | src/internal/parser-yaml.cpp:141 | `MutableMessage` returns the present sub-message, or a new empty one |
| Protobuf.Message.SetMessage | src/internal/parser-yaml.cpp:141-151 | the sub-message's new contents are written back into the parent field |
| YamlTree.Lookup | src/internal/parser-yaml.cpp:115 | `node[name]` is absent exactly when the node is not a map or no key equals `name`, and otherwise is that key's value |
| YamlTree.Find | src/internal/parser-yaml.cpp:115 | a key search finds nothing exactly when no entry has that key |
| ParserYaml.ParserYaml.constructor | include/internal/parser-yaml.h:13 | the parser keeps the file it reads |
| ParserYamlFacts.EscapeRoundTrip | src/internal/parser-yaml.cpp:305 | the `std::quoted` escaping of a path (`Escape`) reads back as the path and is never shorter |
| ParserYamlFacts.QuotedShape | src/internal/parser-yaml.cpp:305 | a written path (`Quoted`) starts and ends with `"`, and its inside reads back as the path |
| ParserYamlFacts.NodeTypeNames | src/internal/parser-yaml.cpp:93-108 | `node_type_to_string` (`NodeTypeName`) gives `Null`, `Scalar`, `Sequence` or `Map`, each exactly for its own kind of node |
| ParserYamlFacts.WrapErrorShape | src/internal/parser-yaml.cpp:303-307 | `wrap_error` (`WrapError`) is the quoted file, `: `, and then the exception's message |
| ParserYaml.TryConvert | src/internal/parser-yaml.cpp:309-317 | `try_convert<T>` gives the converted value exactly when `as<T>` succeeds, and otherwise the wrapped message of its exception |
| ParserYaml.ViewText | src/internal/parser-yaml.cpp:67 | `try_convert<std::string_view>` of a scalar is its own text; any other node fails exactly when the conversion does |
| ParserYaml.ParserYaml.ParseFile | src/internal/parser-yaml.cpp:8-13 | `parse(msg)` leaves exactly the fields of `DocumentStep` on the loaded tree, and returns its errors as a result |
| ParserYaml.ParserYaml.Parse | src/internal/parser-yaml.cpp:15-34 | the loop over the fields leaves exactly `DocumentStep`'s fields and returns "none" exactly when the error list is empty |
| ParserYaml.ParserYaml.ParseField | src/internal/parser-yaml.cpp:111-263 | the per-field overload leaves exactly `FieldStep`'s fields and returns its errors |
| ParserYaml.ParserYaml.MismatchError | src/internal/parser-yaml.cpp:120-126 | builds "Type mismatch for '<f>' - expected <kind>, got <kind>" |
| ParserYaml.ParserYaml.InvalidEnumError | src/internal/parser-yaml.cpp:241-251 | builds "Invalid enum value '<text>' for field <f>" |
| ParserYaml.ParserYaml.ParseScalar | src/internal/parser-yaml.cpp:159-252 | the scalar switch leaves exactly the fields and errors of `ScalarStep` |
| ParserYaml.ParserYaml.ParseArray | src/internal/parser-yaml.cpp:265-301 | the repeated-field dispatch leaves exactly the fields and errors of `ArrayStep`, with one error for a repeated message |
| ParserYaml.ParserYaml.ParseArrayInner | src/internal/parser-yaml.cpp:36-55 | clear-then-add leaves the field holding exactly the converted elements in order, and returns exactly the failures in order |
| ParserYaml.ParserYaml.ParseArrayEnum | src/internal/parser-yaml.cpp:57-89 | clear-then-add leaves the field holding exactly the numbers of the elements that name an enum value, and returns one error per other element |
| ParserYaml.ParserYaml.EnumElement | src/internal/parser-yaml.cpp:66-83 | one element of an enum list is read as text (a scalar's own text) and converts to the number of its exact name, or to the conversion or invalid-name error |
| ParserYamlFacts.AbsentFieldSkipped | src/internal/parser-yaml.cpp:115-117 | a field absent from the mapping leaves the message unchanged and reports no error |
| ParserYamlFacts.FieldStepLocal | src/internal/parser-yaml.cpp:111-263 | parsing one field changes no other field |
| ParserYamlFacts.UnmentionedKept | src/internal/parser-yaml.cpp:21-28 | a field no schema field reaches, or the mapping does not mention, keeps its prior value through the whole walk |
| ParserYamlFacts.FieldErrorsIndependent | src/internal/parser-yaml.cpp:111-263 | the errors of one field do not depend on the message's prior contents |
| ParserYamlFacts.MessageErrorsIndependent | src/internal/parser-yaml.cpp:21-28 | the errors of a message walk do not depend on the message's prior contents |
| ParserYamlFacts.ErrorsInDeclarationOrder | src/internal/parser-yaml.cpp:21-28 | the walk's errors are each field's own report, concatenated in declaration order; no field stops the walk |
| ParserYamlFacts.CleanIffEveryFieldClean | src/internal/parser-yaml.cpp:30-33 | `parse` returns "none" exactly when every field reports no error |
| ParserYamlFacts.ReportsEmpty | src/internal/parser-yaml.cpp:21-33 | the concatenated reports are empty exactly when each field's report is |
| ParserYamlFacts.BatchAppend | src/internal/parser-yaml.cpp:42-51 | converting `a + c` gives `a`'s values and errors followed by `c`'s |
| ParserYamlFacts.BatchAccounts | src/internal/parser-yaml.cpp:42-51 | every element gives exactly one value or one error; no errors exactly when every element converts, and then the values are the elements' values in order |
| ParserYamlFacts.BatchCount | src/internal/parser-yaml.cpp:42-51 | values plus errors number exactly the elements |
| ParserYamlFacts.BatchClean | src/internal/parser-yaml.cpp:42-51 | the batch has no errors exactly when every element converts |
| ParserYamlFacts.BatchValues | src/internal/parser-yaml.cpp:42-51 | when every element converts, value i is element i's converted value |
| ParserYamlFacts.RepeatedReplaced | src/internal/parser-yaml.cpp:40-41 | a repeated field given a sequence ends up with the same list whatever it held before: it is replaced, not appended to |
| ParserYamlFacts.RepeatedMessageUnsupported | src/internal/parser-yaml.cpp:290-294 | a repeated message field adds the single error "Unsupport repeated type MESSAGE" and changes nothing |
| ParserYamlFacts.SequenceExpected | src/internal/parser-yaml.cpp:119-126 | a repeated field given a non-sequence adds one "expected Sequence" mismatch error and changes nothing |
| ParserYamlFacts.MapExpected | src/internal/parser-yaml.cpp:130-137 | a message field given a non-map adds one "expected Map" mismatch error and changes nothing |
| ParserYamlFacts.ScalarExpected | src/internal/parser-yaml.cpp:159-163 | a scalar field given a non-scalar adds the one "non-scalar" error and changes nothing |
| ParserYamlFacts.ScalarConverted | src/internal/parser-yaml.cpp:165-237 | a failed conversion adds one `file: what` error and keeps the field; a successful one sets the field to the converted value |
| ParserYamlFacts.EnumByExactName | src/internal/parser-yaml.cpp:241-251 | an enum scalar that names no enum value, exactly, gives one "Invalid enum value" error and changes nothing; otherwise the field holds the named value's number |
| ParserYamlFacts.BytesUntouched | src/internal/parser-yaml.cpp:238-240 | a singular bytes field is left as it was, with no error |
| ParserYamlFacts.NestedErrorsInOrder | src/internal/parser-yaml.cpp:144-156 | a nested message reports its own fields' errors in declaration order |
| ParserYamlFacts.SInt64ScalarAsWritten | src/internal/parser-yaml.cpp:191-200 | as written, a singular `sint64` scalar is never set: a text that does not convert as `uint64_t` (negative text, say) gives one `file: what` error, and one that does reaches `SetUInt64` and aborts; every other type behaves as `ScalarStep` |
| ParserYamlFacts.MessageStepAt | src/internal/parser-yaml.cpp:21-28 | with unique names, a field's slot after the walk is what its own step made of the message the earlier steps left |
| ParserYamlFacts.FieldStepStable | src/internal/parser-yaml.cpp:111-263 | a field's step on a slot already holding what that step produces leaves the slot as it is |
| ParserYamlFacts.MessageStepIdempotent | src/internal/parser-yaml.cpp:15-34 | walking a document again over the message it produced gives the same fields and the same errors |
| ParserYamlFacts.DocumentStepIdempotent | src/internal/parser-yaml.cpp:15-34 | parsing the same file twice leaves the message as one parse did and reports the same errors again |
| ParserEnv.NatToString | src/internal/parser-env.cpp:102 | `std::to_string` of an index is a non-empty string of decimal digits |
| ParserEnv.NatToStringRoundTrip | src/internal/parser-env.cpp:102 | the digits read back as the index |
| ParserEnv.ProbeInjective | src/internal/parser-env.cpp:102 | different indices give different probe names `NAME_i` |
| ParserEnv.ProbeNamesCount | src/internal/parser-env.cpp:101-109 | the first n probe names are n distinct names |
| ParserEnv.ProbeBound | src/internal/parser-env.cpp:101-109 | the probe loop cannot find more set variables than the environment holds, so it ends |
| ParserEnv.FirstUnsetFrom | src/internal/parser-env.cpp:101-106 | the probe stops at the first index whose variable is unset, and every earlier one is set |
| ParserEnv.Texts | src/internal/parser-env.cpp:101-109 | the texts read are exactly those of `NAME_0 … NAME_{k-1}`, k being the first unset index |
| ParserEnv.SkipSpace | src/internal/parser-env.cpp:71-76 | `operator>>` drops only white space from the front, and what is left does not start with any |
| ParserEnv.CookEnvVar | src/internal/parser-env.cpp:167-169 | `cook_env_var` is the prefix, `_`, and the name's upper snake case (`camel_to_snake(name, true)`) |
| ParserEnv.BoolAlpha | src/internal/parser-env.cpp:71-76 | `is >> std::boolalpha` reads true exactly when the text, after leading white space, begins with `true` |
| ParserEnv.SetterText | src/internal/parser-env.cpp:46-79 | a bool setter reads `boolalpha`, a string setter takes the text verbatim, and a uint32 setter stores a value below 2^32 |
| ParserEnv.ScalarText | src/internal/parser-env.cpp:46-86 | an enum is read by the exact name of one of its values and fails exactly when there is none; strings and bools read as their setters do; a `sint64` reads with `std::stoll` (the corrected switch) |
| ParserEnv.ElementText | src/internal/parser-env.cpp:113-160 | an element of an enum list is read by exact name; string and bytes elements are the text; bools read `boolalpha`; every int64-typed element reads with `std::stoi`; uint32 elements fit in 32 bits |
| ParserEnv.SchemaSafePrefix | src/internal/parser-env.cpp:7-15 | a precondition that holds for n fields holds for any shorter prefix of them |
| ParserEnv.ParserEnv.constructor | include/internal/parser-env.h:11 | the stored prefix is the given prefix passed through `all_caps` |
| ParserEnv.ParserEnv.Parse | src/internal/parser-env.cpp:7-15 | `parse(msg)` leaves exactly the fields `EnvMessage` gives for the upper-cased prefix |
| ParserEnv.ParserEnv.ParseField | src/internal/parser-env.cpp:17-92 | the per-field overload leaves exactly `EnvField`'s fields: recursion for messages, probes for repeated fields, unset skipped, `Set*` of the parsed text |
| ParserEnv.ParserEnv.ParseMessage | src/internal/parser-env.cpp:27-39 | the loop over a sub-message's fields with the cooked prefix leaves exactly `EnvMessage`'s fields |
| ParserEnv.ParserEnv.ParseArray | src/internal/parser-env.cpp:96-165 | a repeated field is cleared and then holds the parsed texts of `NAME_0 … NAME_{k-1}`; a repeated message is left alone |
| ParserEnv.ParserEnv.CamelToSnakeCase | src/internal/parser-env.cpp:171-184 | delegates to the shared loop `CaseConvert.CamelToSnake`, so it returns exactly `camel_to_snake(s, false)` |
| ParserEnv.ParserEnv.ToUpper | src/internal/parser-env.cpp:186-191 | delegates to the shared loop `CaseConvert.AllCaps`, so it returns exactly `all_caps(s)` |
| ParserEnvFacts.CookEnvVarShape | src/internal/parser-env.cpp:167-169 | the variable name is `prefix + "_" + camel_to_snake(name, true)`, its length is known, and after the prefix it holds no lower-case letter |
| ParserEnvFacts.NestedVariable | src/internal/parser-env.cpp:27-37 | a nested leaf's variable is `P_OUTER_INNER` |
| ParserEnvFacts.SnakeFeatureOne | test/TestParserEnv.cpp:51 | `FeatureOne` becomes `FEATURE_ONE` |
| ParserEnvFacts.SnakeMixedCase | test/TestParserEnv.cpp:53 | `mixed_cAse` becomes `MIXED_C_ASE` |
| ParserEnvFacts.CookExampleFeatureOne | test/TestParserEnv.cpp:51 | `("MY_APP","FeatureOne")` gives `MY_APP_FEATURE_ONE` |
| ParserEnvFacts.CookExampleSomeFeature | test/TestParser.cpp:52 | `("prefix","some_feature")` gives `prefix_SOME_FEATURE` |
| ParserEnvFacts.CookExampleMixedCase | test/TestParserEnv.cpp:53 | `("MY_APP","mixed_cAse")` gives `MY_APP_MIXED_C_ASE` |
| ParserEnvFacts.ProbeExample | src/internal/parser-env.cpp:102 | index 12 of `MY_LIST` is probed as `MY_LIST_12` |
| ParserEnvFacts.BoolAlphaTrue | src/internal/parser-env.cpp:71-76 | `true`, also after leading white space, reads as true |
| ParserEnvFacts.BoolAlphaFalse | src/internal/parser-env.cpp:71-76 | `false`, `TRUE`, `1`, `yes` and the empty text read as false |
| ParserEnvFacts.UInt32Truncates | src/internal/parser-env.cpp:62-65 | `SetUInt32(stoul(v))` stores the parsed number modulo 2^32, and the number itself when it fits |
| ParserEnvFacts.SInt64TextAsWritten | src/internal/parser-env.cpp:57-61 | as written, a set variable of a singular `sint64` field always aborts; every other type reads as `ScalarText` |
| ParserEnvFacts.UnsetKept | src/internal/parser-env.cpp:41-44 | a singular field whose variable is unset is left unchanged |
| ParserEnvFacts.StringFromText | src/internal/parser-env.cpp:77-79 | a string field is set to the variable's text verbatim |
| ParserEnvFacts.BoolFromText | src/internal/parser-env.cpp:71-76 | a bool field is set to whether the text reads as `true` |
| ParserEnvFacts.EnumFromText | src/internal/parser-env.cpp:83-86 | an enum field is set to the number of the value named exactly by the text |
| ParserEnvFacts.BytesIgnored | src/internal/parser-env.cpp:80-82 | a singular bytes field is left unchanged |
| ParserEnvFacts.RepeatedFromProbes | src/internal/parser-env.cpp:96-110 | a repeated field ends up holding exactly the parsed values of the set probes before the first unset one, empty when `NAME_0` is unset, whatever it held before |
| ParserEnvFacts.RepeatedMessageIgnored | src/internal/parser-env.cpp:161-163 | a repeated message field is left unchanged |
| ParserEnvFacts.EnvFieldLocal | src/internal/parser-env.cpp:17-92 | one field's step changes no other field |
| ParserEnvFacts.EnvMessageKeeps | src/internal/parser-env.cpp:11-14 | a name no schema field has keeps its prior value |
| ParserEnvFacts.EnvMessageAt | src/internal/parser-env.cpp:11-14 | a field's final value is what its own step makes of the message as the earlier steps left it |
| ParserEnvFacts.EnvWins | src/internal/parser-env.cpp:46-79 | a singular scalar field whose variable is set ends with the value parsed from the text, whatever it held before |
| ParserEnvFacts.UnsetLeafKept | src/internal/parser-env.cpp:41-44 | after the whole walk, a singular field with an unset variable keeps its prior value |
| ParserEnvFacts.EnvFieldStable | src/internal/parser-env.cpp:17-92 | a field's step on a slot already holding what that step produces leaves the slot as it is |
| ParserEnvFacts.EnvMessageIdempotent | src/internal/parser-env.cpp:7-15 | reading the same environment again over the message it produced changes nothing |
| ConfigMuch.YamlSchemaSafePrefix | src/config-much.cpp:22-25 | a precondition that holds for n fields holds for any shorter prefix of them |
| ConfigMuch.EnvSchemaSafePrefix | src/config-much.cpp:29-32 | the same, for the environment walk |
| ConfigMuch.Parser.constructor | include/config-much.h:9-10 | the parser keeps the given file list and prefix |
| ConfigMuch.Parser.Parse | src/config-much.cpp:15-33 | `parse(msg)` leaves exactly `ParseResult`: every file front to back over all fields, then the environment |
| ConfigMuch.Parser.ParseYamlFields | src/config-much.cpp:22-25 | the loop over one level's fields leaves exactly `YamlMessage`'s fields |
| ConfigMuch.Parser.ParseYamlField | src/config-much.cpp:35-132 | the per-field YAML overload leaves exactly `YamlField`'s fields |
| ConfigMuch.Parser.ParseArray | src/config-much.cpp:218-256 | a repeated field of a listable type is cleared and refilled with the converted items; an enum or message list is left alone |
| ConfigMuch.Parser.ParseArrayField | src/config-much.cpp:208-216 | clear-then-add leaves the field holding every converted item in order |
| ConfigMuch.Parser.ParseEnvFields | src/config-much.cpp:29-32 | the loop over one level's fields leaves exactly `EnvMessage`'s fields |
| ConfigMuch.Parser.ParseEnvField | src/config-much.cpp:134-206 | the per-field environment overload leaves exactly `EnvField`'s fields |
| ConfigMuch.Parser.CookEnvVar | src/config-much.cpp:258-260 | builds the same variable name as the environment parser's `cook_env_var` |
| ConfigMuch.Parser.CamelToSnakeCase | src/config-much.cpp:262-275 | delegates to the shared loop `CaseConvert.CamelToSnake`, so it returns exactly `camel_to_snake(s, false)` |
| ConfigMuch.Parser.ToUpper | src/config-much.cpp:277-282 | delegates to the shared loop `CaseConvert.AllCaps`, so it returns exactly `all_caps(s)` |
| ConfigMuch.Builder.constructor | include/config-much.h:33-35 | a new builder has no files and an empty prefix |
| ConfigMuch.Builder.AddFile | src/config-much.cpp:10-13 | `add_file` appends the path at the end, keeps the prefix and returns the same builder |
| ConfigMuch.Builder.SetEnvVarPrefix | include/config-much.h:26-29 | `set_env_var_prefix` replaces the prefix, keeps the files and returns the same builder |
| ConfigMuch.Builder.Build | include/config-much.h:31 | `build` hands a new parser the builder's own file list and prefix |
| ConfigMuch.BuildInOrder | src/config-much.cpp:10-13 | two chained `add_file` calls and a prefix give a parser with the files in call order |
| ConfigMuchFacts.YamlFieldLocal | src/config-much.cpp:35-42 | one field's YAML step changes no other field, and a missing field changes nothing |
| ConfigMuchFacts.YamlMessageKeeps | src/config-much.cpp:22-25 | a name that no schema field has, or that the mapping lacks, keeps its prior value |
| ConfigMuchFacts.YamlMessageAt | src/config-much.cpp:22-25 | a field's value after one document is what its own step makes of the message as the earlier steps left it |
| ConfigMuchFacts.YamlMessageBefore | src/config-much.cpp:22-25 | the steps before a field's own leave it alone |
| ConfigMuchFacts.YamlScalarSet | src/config-much.cpp:74-120 | a singular settable field given a scalar holds its converted value after the document |
| ConfigMuchFacts.YamlRepeatedRefilled | src/config-much.cpp:44-50 | a repeated listable field mentioned by the document becomes its converted items in order, or an empty list when not given a sequence |
| ConfigMuchFacts.YamlNoMapping | src/config-much.cpp:39-42 | a document that is not a mapping leaves the message unchanged |
| ConfigMuchFacts.YamlMessagePresent | src/config-much.cpp:52-67 | a message field mentioned with a non-map value is marked present and keeps its contents |
| ConfigMuchFacts.YamlInert | src/config-much.cpp:121-126 | YAML never changes an enum field or a singular bytes field |
| ConfigMuchFacts.ApplyFilesAppend | src/config-much.cpp:19-26 | applying files `a + b` is applying `a`, then `b` |
| ConfigMuchFacts.FilesKeep | src/config-much.cpp:19-26 | a field that no file mentions keeps its prior value |
| ConfigMuchFacts.LastFileWins | src/config-much.cpp:19-26 | a singular settable field holds the value from the last file that mentions it |
| ConfigMuchFacts.ApplyFilesLast | src/config-much.cpp:19-26 | the files up to j are the files before j, then file j |
| ConfigMuchFacts.FilesInert | src/config-much.cpp:121-126 | no file changes an enum field or a singular bytes field |
| ConfigMuchFacts.EnvFieldLocal | src/config-much.cpp:134-206 | one field's environment step changes no other field |
| ConfigMuchFacts.EnvMessageKeeps | src/config-much.cpp:29-32 | a name no schema field has keeps its prior value |
| ConfigMuchFacts.EnvMessageAt | src/config-much.cpp:29-32 | a field's final value is what its own step makes of the message as the earlier steps left it |
| ConfigMuchFacts.EnvOverridesFiles | src/config-much.cpp:15-33 | a singular settable field whose variable is set ends with the value parsed from it, whatever the files said |
| ConfigMuchFacts.EnvUnsetKeepsFiles | src/config-much.cpp:154-157 | a field whose variable is unset keeps the value the files gave it |
| ConfigMuchFacts.ParseInert | src/config-much.cpp:195-200 | `Parser::parse` never changes an enum field or a singular bytes field |
| ConfigMuchFacts.RepeatedBytesParsed | src/config-much.cpp:249-250 | a repeated bytes field has C++ type string, so the YAML walk fills it as a string list |
| ConfigMuchFacts.NothingToDo | src/config-much.cpp:154-157 | when no variable is set and there are no nested messages, the environment walk changes nothing |
| ConfigMuchFacts.YamlFieldStable | src/config-much.cpp:35-132 | a field's YAML step on a slot already holding what that step produces leaves the slot as it is |
| ConfigMuchFacts.YamlMessageIdempotent | src/config-much.cpp:22-25 | applying the same document again over the message it produced changes nothing |
| ConfigMuchFacts.EnvFieldStable | src/config-much.cpp:134-206 | a field's environment step on a slot already holding what that step produces leaves the slot as it is |
| ConfigMuchFacts.EnvMessageIdempotent | src/config-much.cpp:29-32 | reading the same environment again over the message it produced changes nothing |

## Left out

- YAML text parsing and file loading (`YAML::LoadFile`) are not modelled. The documents are a map from file name to an already built tree.
- yaml-cpp's `as<T>` is not modelled. It is an abstract converter that either yields a value or fails with a message.
- Integer parsing (`std::stoi`, `std::stoll`, `std::stoull`, `std::stoul`) and all float and double parsing are abstract parameters. Their range and format rules are not modelled. The truncation of `stoul` to 32 bits by `SetUInt32` is modelled explicitly.
- `std::getenv` is not modelled: the environment is a map.
- Logging to `std::cout` and `std::cerr` is not modelled, because it has no effect on the message.
- Exceptions and aborts are not modelled; each becomes a precondition instead. These preconditions are `ParserEnv.FieldSafe`, `ConfigMuch.YamlFieldSafe`, `ConfigMuch.EnvFieldSafe` and `ConfigMuch.FilesSafe`. They cover the following cases:
  - a failed `stoi`/`stoull`/`as<T>`;
  - the null dereference on an unknown enum name in the environment parser;
  - reflection calls on a field of the wrong label;
  - a top-level scalar document, which is also excluded by the `!node.Scalar?` requires of `ParserYaml.ParserYaml.Parse` and `ParserYaml.ParserYaml.ParseFile`;
  - a message field given a scalar when the message type has fields (`v.Scalar? ==> f.kind.schema.fields == []` in `ConfigMuch.YamlFieldSafe`), where `node[name]` throws `BadSubscript` (src/config-much.cpp:62-63).
- The walks follow the corrected type switch for a singular `sint64` field, as "## Findings" says. As written, the internal YAML parser converts the scalar as `uint64_t`. A text that does not convert, such as a negative number, gives a bad-conversion error and keeps the field. A text that converts reaches `SetUInt64`, a fatal reflection error. The environment and top-level paths abort in every case. The members below promise the `SetInt64` result for such a field, which the source never produces. `ParserYaml.ScalarStepAsWritten` and `ParserEnv.ScalarTextAsWritten` model the code as written.
- ParserYaml.ScalarStep: a singular `sint64` scalar is converted as `int64_t` and set, where the source reports the `uint64_t` error or aborts.
- ParserYaml.ParserYaml.ParseScalar: follows `ScalarStep`, so it sets a singular `sint64` field where the source reports an error or aborts.
- ParserYaml.FieldStep: a singular `sint64` field given a scalar follows `ScalarStep`.
- ParserYaml.ParserYaml.ParseField: follows `FieldStep` for a `sint64` field.
- ParserYamlFacts.ScalarConverted: for `sint64`, states the corrected `int64_t` conversion and set.
- ParserEnv.ScalarText: a `sint64` text reads with `std::stoll`, where the source aborts.
- ParserEnv.EnvField: a set `sint64` variable sets the field, where the source aborts.
- ParserEnv.ParserEnv.ParseField: follows `EnvField` for a `sint64` field.
- ParserEnvFacts.EnvWins: for `sint64`, states the `std::stoll` value, where the source aborts.
- ConfigMuch.YamlField: a `sint64` scalar is set from the corrected conversion, and `ConfigMuch.YamlFieldSafe` asks that conversion to succeed; the source aborts either way.
- ConfigMuch.Parser.ParseYamlField: follows `YamlField` for a `sint64` field.
- ConfigMuch.EnvField: a set `sint64` variable sets the field with `std::stoll`, and `ConfigMuch.EnvFieldSafe` asks that parse to succeed; the source aborts either way.
- ConfigMuch.Parser.ParseEnvField: follows `EnvField` for a `sint64` field.
- ConfigMuchFacts.YamlScalarSet: for `sint64`, states the corrected value, where the source aborts.
- ConfigMuchFacts.LastFileWins: for `sint64`, states the corrected value, where the source aborts.
- ConfigMuchFacts.EnvOverridesFiles: for `sint64`, states the corrected value, where the source aborts.
- The repeated INT64 environment path reads each element with `std::stoi` (src/internal/parser-env.cpp:123). The model passes that parser through as written and does not model its 32-bit range.
- Protobuf reflection is a schema datatype and a `Message` class. `MutableMessage` is a copy of the sub-message that `SetMessage` writes back, so aliasing between parent and child is not modelled.
- `TYPE_GROUP` is not part of the model.
- Locale-dependent `isupper`, `tolower` and `toupper` are not modelled: they follow the C locale on ASCII.
- The internal parsers and the top-level parser keep identical `camel_to_snake_case` and `to_upper` bodies. Both copies are modelled by one shared loop each, `CaseConvert.CamelToSnake` and `CaseConvert.AllCaps`, which the class methods call. include/config-much.h does not declare `Parser::cook_env_var`, `camel_to_snake_case`, `to_upper`, `parse_array` or `parse_array_field`, although src/config-much.cpp defines them. The model gives them to `Parser` as static methods.
- `ParserEnv::parse(msg)` is declared to return a `ParserResult` (include/internal/parser-env.h:13), but its definition returns `void` (src/internal/parser-env.cpp:7). The model follows the definition and returns nothing.
- The top-level parser is documented as never modifying bytes fields, but it does modify repeated bytes fields. Their C++ type is string, so `parse_array` fills them through `parse_array_field<std::string>`. The model follows the code (`ConfigMuchFacts.RepeatedBytesParsed`); enum fields and singular bytes are never written.
- `Builder::build` is modelled as leaving the builder unchanged. The `std::move` in `build` does not empty it, because the `Parser` constructor initialises its members from named rvalue references, which copies them. The moved-from state of a real `std::string` or `std::vector` is otherwise not modelled.
- The CLI parser stub, `include/internal/parser-interface.h` and `example/main.cpp` are not part of this model.

## Findings

| source | as written | input that shows it | evidently intended | confidence | as-written member | corrected member |
|---|---|---|---|---|---|---|
| src/internal/parser-yaml.cpp:191-200 | `TYPE_SINT64` shares the case of `FIXED64` and `UINT64`: `try_convert<uint64_t>`, then `SetUInt64` | a singular `sint64` field given a negative scalar such as `-64`: the `uint64_t` conversion fails, as it does for `field_u64: -64` in test/TestParserYaml.cpp:167,185, and the field is not set. A scalar that converts reaches `SetUInt64` on an int64 field, which protobuf's reflection rejects as a fatal error | `TYPE_SINT64` belongs with `INT64`/`SFIXED64`: `try_convert<int64_t>`, then `SetInt64` | not executed | ParserYamlFacts.SInt64ScalarAsWritten | ParserYamlFacts.ScalarConverted |
| src/internal/parser-env.cpp:57-61 | `TYPE_SINT64` shares the case of `FIXED64` and `UINT64`: `SetUInt64(std::stoull(value))` | any set variable of a singular `sint64` field: `stoull` throws, or `SetUInt64` on an int64 field aborts | `SetInt64(std::stoll(value))` | not executed | ParserEnvFacts.SInt64TextAsWritten | ParserEnv.ScalarText |
| src/config-much.cpp:91-97 | `TYPE_SINT64` shares the case of `FIXED64` and `UINT64`: `as<uint64_t>()`, then `SetUInt64` | a singular `sint64` field given any scalar: the conversion throws, or `SetUInt64` on an int64 field aborts | `as<int64_t>()`, then `SetInt64` | not executed | Protobuf.AsWrittenSetterMismatch | Protobuf.SwitchSetter |
| src/config-much.cpp:172-176 | `TYPE_SINT64` shares the case of `FIXED64` and `UINT64`: `SetUInt64(std::stoull(value))` | any set variable of a singular `sint64` field: `stoull` throws, or `SetUInt64` on an int64 field aborts | `SetInt64(std::stoll(value))` | not executed | Protobuf.AsWrittenSetterMismatch | Protobuf.SwitchSetter |
