# DeviceConnectCodegen: HTML docs and plugin grouping, modelled in Dafny

This project models two parts of the Device Connect code generator. Both are
proved correct against specifications written as Dafny functions and
predicates.

- **HTML documentation** (`HtmlDocsCodegenConfig`). `processOpts` builds a
  list of profile names and a list of profile documents, both sorted by
  name. Each profile document holds every operation of the profile with:
  - its id and name;
  - its parameter table;
  - the tables of its response and event messages.

  A message table is built by:
  - resolving the message schema, through the definitions table and
    `getProperties` for composed models;
  - flattening the resolved property map in pre-order with a nesting level
    per row;
  - annotating every row with the deepest level of the table.

  Display names of Swagger types (`convertPrimitiveProperty`,
  `convertPropertyToCommonName`, the parameter `type()`) are modelled with
  them.
- **Plugin grouping** (`AbstractPluginCodegenConfig`). Covered here:
  - the path helpers that cut a Device Connect path
    "/<profile>/<interface>/<attribute>" with `String.split("/")`;
  - the API path and API identifier built from those parts;
  - the case-insensitive standard class name lookup and `toUpperCapital`;
  - the grouping loop of `preprocessSwagger`. It buckets every operation's
    API record into its profile, keeps profiles in first-occurrence order,
    and sets the per-profile `has...Api` flags.

Files, one module each:

| file | module | what it holds |
|---|---|---|
| `java_lang.dfy` | `JavaLang` | Java null (`Option`), exceptions (`Result`), ASCII case mapping, `String.split` with a one-character pattern, `compareTo` order, `HashMap` key enumeration |
| `swagger.dfy` | `Swagger` | the Swagger 2.0 model: properties, models, parameters, responses, operations, paths |
| `type_names.dfy` | `TypeNames` | `convertPrimitiveProperty`, `convertPropertyToCommonName`, parameter `type()` |
| `schema_resolver.dfy` | `SchemaResolver` | `findDefinition`, `Map.putAll`, `getProperties` (a stack loop over composed models) |
| `flattener.dfy` | `Flattener` | `ResponseParamDoc` (a class with a mutable `maxNestLevel`), `createResponseParameterDocument`, `getMaxNestLevel`, the annotation loop |
| `message_docs.dfy` | `MessageDocs` | `createMessageDocument`, `createResponseDocument`, `createEventDocument` |
| `html_docs.dfy` | `HtmlDocs` | `processOpts`: ids, names, base paths, parameter tables, operation lists, sorted profile lists |
| `plugin_paths.dfy` | `PluginPaths` | the path helpers, `createApiPath`, `createApiIdentifier`, `getStandardClassName`, `toUpperCapital` |
| `plugin_grouping.dfy` | `PluginGrouping` | the grouping and flag loop of `preprocessSwagger` |

How the Java constructs are modelled:
- A Java reference that may be null is an `Option`.
- A Java exception that ends the run is `Throws(e)` in a `Result`.
- A Java map whose iteration order matters is a sequence of pairs in that
  order.
- The `HashMap` that `getProperties` returns is a Dafny `map`. Its iteration
  order is left open: the key enumeration is any duplicate-free listing of
  its keys.
- A Dafny string holds Unicode code points, while a Java `String` holds
  UTF-16 code units and `compareTo` compares those. The model's order ranks
  a character above U+FFFF (a surrogate pair in Java) after the characters
  below U+D800 and before those from U+E000 to U+FFFF, as Java does.
- `DConnectOperation.parse` is a field `dconnect` of the operation, holding
  the optional operation type and the optional event model.

## Model

| member | source | states |
|---|---|---|
| JavaLang.Str | DeviceConnectCodegen/modules/deviceconnect-codegen/src/main/java/org/deviceconnect/codegen/languages/AbstractPluginCodegenConfig.java:243 | string concatenation prints a null profile name as "null" and any other string as itself |
| JavaLang.ToLower | DeviceConnectCodegen/modules/deviceconnect-codegen/src/main/java/org/deviceconnect/codegen/docs/HtmlDocsCodegenConfig.java:139 | `toLowerCase` keeps the length and lower-cases every character (ASCII) |
| JavaLang.ToUpper | DeviceConnectCodegen/modules/deviceconnect-codegen/src/main/java/org/deviceconnect/codegen/languages/AbstractPluginCodegenConfig.java:394 | `toUpperCase` keeps the length and upper-cases every character (ASCII) |
| JavaLang.EqualsIgnoreCaseIsLowerEquality | DeviceConnectCodegen/modules/deviceconnect-codegen/src/main/java/org/deviceconnect/codegen/languages/AbstractPluginCodegenConfig.java:48 | `equalsIgnoreCase` holds exactly when the lower-cased strings are equal |
| JavaLang.ReplaceChar | DeviceConnectCodegen/modules/deviceconnect-codegen/src/main/java/org/deviceconnect/codegen/docs/HtmlDocsCodegenConfig.java:138 | `replaceAll` of one literal character keeps the length, replaces that character everywhere and leaves every other character alone |
| JavaLang.DropTrailingEmpty | DeviceConnectCodegen/modules/deviceconnect-codegen/src/main/java/org/deviceconnect/codegen/languages/AbstractPluginCodegenConfig.java:204 | `split` drops exactly the trailing empty strings: the result is a prefix, it does not end in "", and everything cut off is "" |
| JavaLang.JoinPieces | DeviceConnectCodegen/modules/deviceconnect-codegen/src/main/java/org/deviceconnect/codegen/languages/AbstractPluginCodegenConfig.java:204 | cutting a string at every separator and joining the pieces back gives the string |
| JavaLang.PiecesOfJoin | DeviceConnectCodegen/modules/deviceconnect-codegen/src/main/java/org/deviceconnect/codegen/languages/AbstractPluginCodegenConfig.java:204 | joining separator-free parts and cutting them again gives the parts |
| JavaLang.SplitCharacterised | DeviceConnectCodegen/modules/deviceconnect-codegen/src/main/java/org/deviceconnect/codegen/languages/AbstractPluginCodegenConfig.java:204 | for a non-empty string, `split` gives separator-free parts with a non-empty last part; joined back they give the string minus trailing separators; the result is empty iff the string is all separators |
| JavaLang.SplitOfJoin | DeviceConnectCodegen/modules/deviceconnect-codegen/src/main/java/org/deviceconnect/codegen/languages/AbstractPluginCodegenConfig.java:204 | `split` inverts joining separator-free parts whose last part is not empty |
| JavaLang.Split | DeviceConnectCodegen/modules/deviceconnect-codegen/src/main/java/org/deviceconnect/codegen/languages/AbstractPluginCodegenConfig.java:204-220 | `split("/")` gives at most one more part than the string has characters, and a non-empty string never gives an empty last part; `SplitCharacterised` and `SplitOfJoin` state what the parts are |
| JavaLang.CodeUnits | DeviceConnectCodegen/modules/deviceconnect-codegen/src/main/java/org/deviceconnect/codegen/docs/HtmlDocsCodegenConfig.java:73 | a Java string stores a character below U+10000 as one code unit equal to its code point and any other as a high surrogate then a low surrogate, which decode back to the code point |
| JavaLang.NotAfter | DeviceConnectCodegen/modules/deviceconnect-codegen/src/main/java/org/deviceconnect/codegen/docs/HtmlDocsCodegenConfig.java:73 | `compareTo(...) <= 0`: character by character, a proper prefix first, two different characters ordered as their UTF-16 code units are; `NotAfterIsCodeUnitOrder` proves it equal to comparing the code units |
| JavaLang.NotAfterIsCodeUnitOrder | DeviceConnectCodegen/modules/deviceconnect-codegen/src/main/java/org/deviceconnect/codegen/docs/HtmlDocsCodegenConfig.java:73 | for all strings, the model's order is exactly Java's: the lexicographic order of the two UTF-16 code-unit sequences, a proper prefix first |
| JavaLang.PrefixNotAfter | DeviceConnectCodegen/modules/deviceconnect-codegen/src/main/java/org/deviceconnect/codegen/docs/HtmlDocsCodegenConfig.java:73 | a name never sorts after a name it is a prefix of |
| JavaLang.SurrogatePairFirst | DeviceConnectCodegen/modules/deviceconnect-codegen/src/main/java/org/deviceconnect/codegen/docs/HtmlDocsCodegenConfig.java:172 | the name U+1F600 (code units D83D DE00) sorts before the name U+FF21 although its code point is greater |
| JavaLang.NotAfterTotal | DeviceConnectCodegen/modules/deviceconnect-codegen/src/main/java/org/deviceconnect/codegen/docs/HtmlDocsCodegenConfig.java:73 | `compareTo` orders any two profile names one way or the other |
| JavaLang.NotAfterTransitive | DeviceConnectCodegen/modules/deviceconnect-codegen/src/main/java/org/deviceconnect/codegen/docs/HtmlDocsCodegenConfig.java:73 | the `compareTo` order is transitive |
| JavaLang.NotAfterAntisymmetric | DeviceConnectCodegen/modules/deviceconnect-codegen/src/main/java/org/deviceconnect/codegen/docs/HtmlDocsCodegenConfig.java:73 | two names each not after the other are equal |
| JavaLang.HashMapKeys | DeviceConnectCodegen/modules/deviceconnect-codegen/src/main/java/org/deviceconnect/codegen/docs/HtmlDocsCodegenConfig.java:328 | iterating a hash map visits every key exactly once, in an unspecified order |
| TypeNames.ConvertPrimitiveProperty | DeviceConnectCodegen/modules/deviceconnect-codegen/src/main/java/org/deviceconnect/codegen/docs/HtmlDocsCodegenConfig.java:199-221 | integer is "long" iff the format is int64, else "integer"; number is "double" iff the format is double, else "float"; string is the format for byte/binary/date/password, "dateTime" for date-time, else "string"; any other type, null included, comes back unchanged |
| TypeNames.CommonName | DeviceConnectCodegen/modules/deviceconnect-codegen/src/main/java/org/deviceconnect/codegen/docs/HtmlDocsCodegenConfig.java:186-197 | a property not typed "array" gets its primitive name; the only exceptions are ClassCastException and NullPointerException; an array's name ends in ")". `CommonNameByNesting` gives the whole name in closed form |
| TypeNames.CommonNameByNesting | DeviceConnectCodegen/modules/deviceconnect-codegen/src/main/java/org/deviceconnect/codegen/docs/HtmlDocsCodegenConfig.java:186-197 | a property nested in d arrays is named "array(" d times, the innermost primitive name, then ")" d times. An array without items throws NullPointerException at line 191. A property typed "array" that is not an array property throws ClassCastException at line 190 |
| TypeNames.CommonNameOfObject | DeviceConnectCodegen/modules/deviceconnect-codegen/src/main/java/org/deviceconnect/codegen/docs/HtmlDocsCodegenConfig.java:186-197 | a property of type "object" is named "object" |
| TypeNames.ParamType | DeviceConnectCodegen/modules/deviceconnect-codegen/src/main/java/org/deviceconnect/codegen/docs/HtmlDocsCodegenConfig.java:103-130 | `type()` is null for anything but a query or form parameter, and for one without a type. An array without items is exactly "array", an object is "object", and only an array with items can throw |
| TypeNames.ParamTypeAgreesWithCommonName | DeviceConnectCodegen/modules/deviceconnect-codegen/src/main/java/org/deviceconnect/codegen/docs/HtmlDocsCodegenConfig.java:119-129 | a typed query or form parameter is named exactly as `convertPropertyToCommonName` names the same property, exceptions included, whenever an array has items |
| SchemaResolver.FindDefinition | DeviceConnectCodegen/modules/deviceconnect-codegen/src/main/java/org/deviceconnect/codegen/docs/HtmlDocsCodegenConfig.java:354-360 | a model is found iff the definitions table exists and holds the name, and it is the table's entry |
| SchemaResolver.PutAll | DeviceConnectCodegen/modules/deviceconnect-codegen/src/main/java/org/deviceconnect/codegen/docs/HtmlDocsCodegenConfig.java:372-373 | `putAll` makes the key set the union of the old keys and the added keys |
| SchemaResolver.PutAllLastWins | DeviceConnectCodegen/modules/deviceconnect-codegen/src/main/java/org/deviceconnect/codegen/docs/HtmlDocsCodegenConfig.java:372-373 | after `putAll`, a key holds the value of its last entry |
| SchemaResolver.PutAllKeepsOthers | DeviceConnectCodegen/modules/deviceconnect-codegen/src/main/java/org/deviceconnect/codegen/docs/HtmlDocsCodegenConfig.java:372-373 | `putAll` leaves the value of every key it does not add unchanged |
| SchemaResolver.PutAllConcat | DeviceConnectCodegen/modules/deviceconnect-codegen/src/main/java/org/deviceconnect/codegen/docs/HtmlDocsCodegenConfig.java:372-384 | two `putAll`s in a row are one `putAll` of both entry lists |
| SchemaResolver.PutAllOverride | DeviceConnectCodegen/modules/deviceconnect-codegen/src/main/java/org/deviceconnect/codegen/docs/HtmlDocsCodegenConfig.java:372-384 | `putAll` overrides the old map with the added entries: the later writer wins |
| SchemaResolver.PutAllValueOrigin | DeviceConnectCodegen/modules/deviceconnect-codegen/src/main/java/org/deviceconnect/codegen/docs/HtmlDocsCodegenConfig.java:372-384 | every value after `putAll` was either already there or is one of the added entries |
| SchemaResolver.MergedKeys | DeviceConnectCodegen/modules/deviceconnect-codegen/src/main/java/org/deviceconnect/codegen/docs/HtmlDocsCodegenConfig.java:362-389 | a key is in the merged map iff some parent supplies it: a concrete parent or a resolvable reference with non-null properties, found directly or through nested composed parents |
| SchemaResolver.MergedValueOrigin | DeviceConnectCodegen/modules/deviceconnect-codegen/src/main/java/org/deviceconnect/codegen/docs/HtmlDocsCodegenConfig.java:362-389 | every merged value is the value of an entry that was put |
| SchemaResolver.MergedLayers | DeviceConnectCodegen/modules/deviceconnect-codegen/src/main/java/org/deviceconnect/codegen/docs/HtmlDocsCodegenConfig.java:364-387 | stack order decides the winner: nested composed parents override the model's direct parents, and an earlier nested parent overrides a later one because it is popped last |
| SchemaResolver.SkippedParentIgnored | DeviceConnectCodegen/modules/deviceconnect-codegen/src/main/java/org/deviceconnect/codegen/docs/HtmlDocsCodegenConfig.java:370-385 | an unresolvable reference, or a concrete or referenced parent with null properties, changes nothing in the merged map |
| SchemaResolver.NestedIsStack | DeviceConnectCodegen/modules/deviceconnect-codegen/src/main/java/org/deviceconnect/codegen/docs/HtmlDocsCodegenConfig.java:364-387 | the recursive description of the merge order is what the stack loop does with the composed parents pushed |
| SchemaResolver.PutParent | DeviceConnectCodegen/modules/deviceconnect-codegen/src/main/java/org/deviceconnect/codegen/docs/HtmlDocsCodegenConfig.java:370-385 | one parent: its entries are put, and it is pushed iff it is composed |
| SchemaResolver.PutParents | DeviceConnectCodegen/modules/deviceconnect-codegen/src/main/java/org/deviceconnect/codegen/docs/HtmlDocsCodegenConfig.java:369-386 | the parents loop puts every direct contribution in order and pushes the composed parents in order |
| SchemaResolver.GetProperties | DeviceConnectCodegen/modules/deviceconnect-codegen/src/main/java/org/deviceconnect/codegen/docs/HtmlDocsCodegenConfig.java:362-389 | the do-while stack loop terminates and returns the merged map |
| Flattener.BlockShape | DeviceConnectCodegen/modules/deviceconnect-codegen/src/main/java/org/deviceconnect/codegen/docs/HtmlDocsCodegenConfig.java:329-350 | a property gives its own row first, then only deeper rows in pre-order. It gives exactly one row at its level, and no children unless it is an array or an object |
| Flattener.RowsShape | DeviceConnectCodegen/modules/deviceconnect-codegen/src/main/java/org/deviceconnect/codegen/docs/HtmlDocsCodegenConfig.java:321-352 | the rows of a map are in pre-order, and the names at the map's own level are its keys in map order, one row each |
| Flattener.RowsPrefixThrows | DeviceConnectCodegen/modules/deviceconnect-codegen/src/main/java/org/deviceconnect/codegen/docs/HtmlDocsCodegenConfig.java:328-351 | once one entry throws, the whole map throws the same exception |
| Flattener.RowsOk | DeviceConnectCodegen/modules/deviceconnect-codegen/src/main/java/org/deviceconnect/codegen/docs/HtmlDocsCodegenConfig.java:328-351 | the rows of a map are built iff every entry's block is built, whichever entry would throw first |
| Flattener.ResponseParamDoc.constructor | DeviceConnectCodegen/modules/deviceconnect-codegen/src/main/java/org/deviceconnect/codegen/docs/HtmlDocsCodegenConfig.java:406-417 | the fields are the name, the property's type, format, common name, title, description, required flag and the level |
| Flattener.ResponseParamDoc.Required | DeviceConnectCodegen/modules/deviceconnect-codegen/src/main/java/org/deviceconnect/codegen/docs/HtmlDocsCodegenConfig.java:419-421 | "Yes" iff the property is required, otherwise "No" |
| Flattener.ResponseParamDoc.ColSpan | DeviceConnectCodegen/modules/deviceconnect-codegen/src/main/java/org/deviceconnect/codegen/docs/HtmlDocsCodegenConfig.java:427-429 | colSpan is max − level + 1, so it is at least 1 when the level is at most the maximum |
| Flattener.ResponseParamDoc.Indents | DeviceConnectCodegen/modules/deviceconnect-codegen/src/main/java/org/deviceconnect/codegen/docs/HtmlDocsCodegenConfig.java:431-437 | level − 1 empty strings, or none at level 1 or below |
| Flattener.ParamDocList.Add | DeviceConnectCodegen/modules/deviceconnect-codegen/src/main/java/org/deviceconnect/codegen/docs/HtmlDocsCodegenConfig.java:334 | `paramDocList.add` appends the document and changes nothing else |
| Flattener.CreateResponseParameterDocument | DeviceConnectCodegen/modules/deviceconnect-codegen/src/main/java/org/deviceconnect/codegen/docs/HtmlDocsCodegenConfig.java:321-352 | the list keeps its old documents. The new ones are fresh and read back as the pre-order rows of the object's properties; otherwise the call throws the exception those rows throw |
| Flattener.CreateEntryDocument | DeviceConnectCodegen/modules/deviceconnect-codegen/src/main/java/org/deviceconnect/codegen/docs/HtmlDocsCodegenConfig.java:329-350 | one map entry appends its own document and then its nested documents, or throws |
| Flattener.CreateNestedDocument | DeviceConnectCodegen/modules/deviceconnect-codegen/src/main/java/org/deviceconnect/codegen/docs/HtmlDocsCodegenConfig.java:336-350 | an object, or an array of objects, appends the rows of its properties one level deeper. Any other property appends nothing |
| Flattener.GetMaxNestLevel | DeviceConnectCodegen/modules/deviceconnect-codegen/src/main/java/org/deviceconnect/codegen/docs/HtmlDocsCodegenConfig.java:311-319 | the result is at least 1 and at least every level, and it is 1 or the level of some document |
| Flattener.SetMaxNestLevels | DeviceConnectCodegen/modules/deviceconnect-codegen/src/main/java/org/deviceconnect/codegen/docs/HtmlDocsCodegenConfig.java:281-283 | every document's `maxNestLevel` is set to the given maximum |
| MessageDocs.NoDocumentCases | DeviceConnectCodegen/modules/deviceconnect-codegen/src/main/java/org/deviceconnect/codegen/docs/HtmlDocsCodegenConfig.java:246-272 | there is no document iff: the schema is null; or the schema is neither an object nor a reference; or the reference is missing; or the model is neither composed nor concrete; or a concrete model has null properties. A composed model resolves to its merged map |
| MessageDocs.ResolveRoot | DeviceConnectCodegen/modules/deviceconnect-codegen/src/main/java/org/deviceconnect/codegen/docs/HtmlDocsCodegenConfig.java:250-272 | an inline table comes only from an object schema's own properties or from a referenced concrete model with non-null properties; a merged table only from a reference to a composed model, and it is that model's merged map. `NoDocumentCases` says exactly when there is no table |
| MessageDocs.HashMapEntries | DeviceConnectCodegen/modules/deviceconnect-codegen/src/main/java/org/deviceconnect/codegen/docs/HtmlDocsCodegenConfig.java:269-275 | the merged map is seen as an entry list holding each key once with its value |
| MessageDocs.WalksAgree | DeviceConnectCodegen/modules/deviceconnect-codegen/src/main/java/org/deviceconnect/codegen/docs/HtmlDocsCodegenConfig.java:269-275 | two iteration orders of the same root's properties both flatten or both throw |
| MessageDocs.CreateMessageDocument | DeviceConnectCodegen/modules/deviceconnect-codegen/src/main/java/org/deviceconnect/codegen/docs/HtmlDocsCodegenConfig.java:246-309 | no document exactly in the no-document cases; an exception exactly when some walk of the resolved properties fails to flatten (any walk fails iff every walk does). Otherwise the rows are the flattened properties in some order of the resolved map. The maximum is 1 or some row's level; every row carries the maximum and has colSpan ≥ 1 |
| MessageDocs.LookupFinds | DeviceConnectCodegen/modules/deviceconnect-codegen/src/main/java/org/deviceconnect/codegen/languages/AbstractPluginCodegenConfig.java:116-121 | a response is found iff some key is "200", and it is the first such entry |
| MessageDocs.ResponseMessage | DeviceConnectCodegen/modules/deviceconnect-codegen/src/main/java/org/deviceconnect/codegen/docs/HtmlDocsCodegenConfig.java:224-230 | there is a response message iff the responses exist and hold "200" |
| MessageDocs.EventMessage | DeviceConnectCodegen/modules/deviceconnect-codegen/src/main/java/org/deviceconnect/codegen/docs/HtmlDocsCodegenConfig.java:235-242 | there is an event message iff the operation parses and has an event model |
| MessageDocs.CreateResponseDocument | DeviceConnectCodegen/modules/deviceconnect-codegen/src/main/java/org/deviceconnect/codegen/docs/HtmlDocsCodegenConfig.java:223-232 | null without a "200" response, else the message document of that response |
| MessageDocs.CreateEventDocument | DeviceConnectCodegen/modules/deviceconnect-codegen/src/main/java/org/deviceconnect/codegen/docs/HtmlDocsCodegenConfig.java:234-244 | null without an event model, else the message document of the event model |
| HtmlDocs.FullPathName | DeviceConnectCodegen/modules/deviceconnect-codegen/src/main/java/org/deviceconnect/codegen/docs/HtmlDocsCodegenConfig.java:89-94 | the full path starts with the base path; the key "/" adds nothing, and any other key is appended whole |
| HtmlDocs.BasePath | DeviceConnectCodegen/modules/deviceconnect-codegen/src/main/java/org/deviceconnect/codegen/docs/HtmlDocsCodegenConfig.java:82-85 | the declared base path is used when there is one; otherwise it is "/gotapi/" followed by the profile name (`DefaultPathSegments` splits it into "", "gotapi" and the profile) |
| HtmlDocs.DefaultPathSegments | DeviceConnectCodegen/modules/deviceconnect-codegen/src/main/java/org/deviceconnect/codegen/docs/HtmlDocsCodegenConfig.java:82-94 | without a declared base path, "/" splits into "", "gotapi", the profile. "/<segment>" splits into the same followed by the segment |
| HtmlDocs.IdChar | DeviceConnectCodegen/modules/deviceconnect-codegen/src/main/java/org/deviceconnect/codegen/docs/HtmlDocsCodegenConfig.java:138-139 | a path character in an id is never '/' and never an upper-case letter |
| HtmlDocs.OperationId | DeviceConnectCodegen/modules/deviceconnect-codegen/src/main/java/org/deviceconnect/codegen/docs/HtmlDocsCodegenConfig.java:137-140 | the id is the lower-cased method, "-", then the full path with every '/' as '-' and lower-cased. After the method it has no '/' and no upper-case letter |
| HtmlDocs.OperationIdCollisions | DeviceConnectCodegen/modules/deviceconnect-codegen/src/main/java/org/deviceconnect/codegen/docs/HtmlDocsCodegenConfig.java:137-140 | under one method, two full paths get the same id iff they agree character by character once '/' is '-' and case is ignored |
| HtmlDocs.OperationNameInjective | DeviceConnectCodegen/modules/deviceconnect-codegen/src/main/java/org/deviceconnect/codegen/docs/HtmlDocsCodegenConfig.java:141 | the name "<method> <path>" determines both the method and the path |
| HtmlDocs.OperationName | DeviceConnectCodegen/modules/deviceconnect-codegen/src/main/java/org/deviceconnect/codegen/docs/HtmlDocsCodegenConfig.java:141 | the name is the method, one space, then the full path; `OperationNameInjective` reads both back |
| HtmlDocs.MethodNameIsUpper | DeviceConnectCodegen/modules/deviceconnect-codegen/src/main/java/org/deviceconnect/codegen/docs/HtmlDocsCodegenConfig.java:97 | upper-casing a method's name changes nothing |
| HtmlDocs.Description | DeviceConnectCodegen/modules/deviceconnect-codegen/src/main/java/org/deviceconnect/codegen/docs/HtmlDocsCodegenConfig.java:144-150 | an empty description becomes null; any other is kept |
| HtmlDocs.ParamDocs | DeviceConnectCodegen/modules/deviceconnect-codegen/src/main/java/org/deviceconnect/codegen/docs/HtmlDocsCodegenConfig.java:99-134 | one row per parameter, in order, with its name, its `type()`, "Yes" or "No" as it is required, and its description |
| HtmlDocs.OperationDocOf | DeviceConnectCodegen/modules/deviceconnect-codegen/src/main/java/org/deviceconnect/codegen/docs/HtmlDocsCodegenConfig.java:136-156 | the entry has the operation's id, name, x-type, summary, description, parameter rows and response and event tables. It throws exactly when building the response or the event table throws, and then with that table's exception |
| HtmlDocs.AddPathOperations | DeviceConnectCodegen/modules/deviceconnect-codegen/src/main/java/org/deviceconnect/codegen/docs/HtmlDocsCodegenConfig.java:96-157 | the operations of one path are appended in order after the earlier entries, or an exception ends the loop exactly when one of them fails |
| HtmlDocs.OperationList | DeviceConnectCodegen/modules/deviceconnect-codegen/src/main/java/org/deviceconnect/codegen/docs/HtmlDocsCodegenConfig.java:87-158 | the operation list describes every operation of every path in order, or an exception exactly when one of them fails, and then its exception |
| HtmlDocs.ProfileDocsOf | DeviceConnectCodegen/modules/deviceconnect-codegen/src/main/java/org/deviceconnect/codegen/docs/HtmlDocsCodegenConfig.java:79-167 | a profile's document has its name, the info's version, title and description, and the operation list under its base path; it throws exactly when one of its operations fails |
| HtmlDocs.Insert | DeviceConnectCodegen/modules/deviceconnect-codegen/src/main/java/org/deviceconnect/codegen/docs/HtmlDocsCodegenConfig.java:169-174 | inserting into a sorted list keeps it sorted by name and adds exactly the new element |
| HtmlDocs.SortByName | DeviceConnectCodegen/modules/deviceconnect-codegen/src/main/java/org/deviceconnect/codegen/docs/HtmlDocsCodegenConfig.java:70-75 | the sort result is sorted by `compareTo` of the names and is a permutation of its input |
| HtmlDocs.SortedUnique | DeviceConnectCodegen/modules/deviceconnect-codegen/src/main/java/org/deviceconnect/codegen/docs/HtmlDocsCodegenConfig.java:169-174 | with distinct names, only one sorted permutation exists, so the sorted lists do not depend on hash-map order |
| HtmlDocs.CoversPermutation | DeviceConnectCodegen/modules/deviceconnect-codegen/src/main/java/org/deviceconnect/codegen/docs/HtmlDocsCodegenConfig.java:169-174 | sorting keeps one entry per profile and nothing else |
| HtmlDocs.ProfileHtmlList | DeviceConnectCodegen/modules/deviceconnect-codegen/src/main/java/org/deviceconnect/codegen/docs/HtmlDocsCodegenConfig.java:63-75 | the profile list is sorted by name and holds each profile name of the specifications exactly once |
| HtmlDocs.ProfileDocsList | DeviceConnectCodegen/modules/deviceconnect-codegen/src/main/java/org/deviceconnect/codegen/docs/HtmlDocsCodegenConfig.java:78-168 | one document per profile, each describing its profile, or an exception exactly when some profile's operation fails, and then that exception |
| HtmlDocs.ProcessOpts | DeviceConnectCodegen/modules/deviceconnect-codegen/src/main/java/org/deviceconnect/codegen/docs/HtmlDocsCodegenConfig.java:59-184 | both lists are sorted by name and hold each profile exactly once (names only; full documents), or it throws exactly when some profile's operation fails |
| PluginPaths.ProfileNameFromPath | DeviceConnectCodegen/modules/deviceconnect-codegen/src/main/java/org/deviceconnect/codegen/languages/AbstractPluginCodegenConfig.java:203-209 | null iff the split has fewer than 2 parts, else the second part |
| PluginPaths.InterfaceNameFromPath | DeviceConnectCodegen/modules/deviceconnect-codegen/src/main/java/org/deviceconnect/codegen/languages/AbstractPluginCodegenConfig.java:211-217 | non-null iff the split has exactly 4 parts, and then the third |
| PluginPaths.AttributeNameFromPath | DeviceConnectCodegen/modules/deviceconnect-codegen/src/main/java/org/deviceconnect/codegen/languages/AbstractPluginCodegenConfig.java:219-228 | non-null iff the split has 3 or 4 parts, and then the last part |
| PluginPaths.NamesNest | DeviceConnectCodegen/modules/deviceconnect-codegen/src/main/java/org/deviceconnect/codegen/languages/AbstractPluginCodegenConfig.java:203-228 | an interface name comes only with an attribute name, and an attribute name only with a profile name |
| PluginPaths.NoProfile | DeviceConnectCodegen/modules/deviceconnect-codegen/src/main/java/org/deviceconnect/codegen/languages/AbstractPluginCodegenConfig.java:203-209 | "", "/" and a word without '/' name no profile |
| PluginPaths.CreateApiPath | DeviceConnectCodegen/modules/deviceconnect-codegen/src/main/java/org/deviceconnect/codegen/languages/AbstractPluginCodegenConfig.java:230-239 | the API path starts with "/"; it is "/" with neither name and "/<interface>/<attribute>" with both |
| PluginPaths.CreateApiIdentifier | DeviceConnectCodegen/modules/deviceconnect-codegen/src/main/java/org/deviceconnect/codegen/languages/AbstractPluginCodegenConfig.java:241-244 | the id is longer than the method and " /gotapi/", and it ends in '/' when there is no attribute; `FourPartPath` and `ThreePartPath` show it is the method, " /gotapi" and the path |
| PluginPaths.FourPartPath | DeviceConnectCodegen/modules/deviceconnect-codegen/src/main/java/org/deviceconnect/codegen/languages/AbstractPluginCodegenConfig.java:203-244 | "/p/i/a" gives back profile p, interface i and attribute a. Its API path rebuilds the path under the profile, and its id is the method, " /gotapi" and the path |
| PluginPaths.ThreePartPath | DeviceConnectCodegen/modules/deviceconnect-codegen/src/main/java/org/deviceconnect/codegen/languages/AbstractPluginCodegenConfig.java:203-244 | "/p/a" gives back profile p and attribute a with no interface, and the same API path and id round trip |
| PluginPaths.TwoPartPath | DeviceConnectCodegen/modules/deviceconnect-codegen/src/main/java/org/deviceconnect/codegen/languages/AbstractPluginCodegenConfig.java:203-244 | "/p" names only the profile, and its id ends in a '/' the path does not have |
| PluginPaths.StandardClassName | DeviceConnectCodegen/modules/deviceconnect-codegen/src/main/java/org/deviceconnect/codegen/languages/AbstractPluginCodegenConfig.java:46-53 | null iff the profile name is null or no standard name equals it ignoring case; otherwise the first such standard name |
| PluginPaths.ToUpperCapital | DeviceConnectCodegen/modules/deviceconnect-codegen/src/main/java/org/deviceconnect/codegen/languages/AbstractPluginCodegenConfig.java:392-397 | "" throws StringIndexOutOfBoundsException, and only "" does. Any other word gets its first letter upper-cased and the rest lower-cased, same length |
| PluginPaths.CapitalizedCaseInsensitive | DeviceConnectCodegen/modules/deviceconnect-codegen/src/main/java/org/deviceconnect/codegen/languages/AbstractPluginCodegenConfig.java:392-397 | words equal ignoring case capitalize alike; capitalizing is idempotent and keeps the word equal ignoring case |
| PluginGrouping.ApiOf | DeviceConnectCodegen/modules/deviceconnect-codegen/src/main/java/org/deviceconnect/codegen/languages/AbstractPluginCodegenConfig.java:76-148 | throws NullPointerException iff the operation lacks its extension or kind, or is one-shot without responses. Otherwise the record has the path's interface and attribute, the API path and id, one method flag, one kind flag, the "200" response only for one-shot APIs with that key, the event model only for PUT event APIs, and the parameters |
| PluginGrouping.CallApiOf | DeviceConnectCodegen/modules/deviceconnect-codegen/src/main/java/org/deviceconnect/codegen/languages/AbstractPluginCodegenConfig.java:76-148 | the record kept for an operation is the one `ApiOf` builds |
| PluginGrouping.ApisForStep | DeviceConnectCodegen/modules/deviceconnect-codegen/src/main/java/org/deviceconnect/codegen/languages/AbstractPluginCodegenConfig.java:150 | one more operation appends exactly its API to its own profile's list and leaves every other profile's list unchanged |
| PluginGrouping.ApisForMembers | DeviceConnectCodegen/modules/deviceconnect-codegen/src/main/java/org/deviceconnect/codegen/languages/AbstractPluginCodegenConfig.java:61-151 | a profile's list holds exactly the APIs of the operations of its own paths |
| PluginGrouping.ProfileOrder | DeviceConnectCodegen/modules/deviceconnect-codegen/src/main/java/org/deviceconnect/codegen/languages/AbstractPluginCodegenConfig.java:61-74 | the profiles are distinct and are exactly the profiles that the paths name |
| PluginGrouping.ProfileOrderPrefix | DeviceConnectCodegen/modules/deviceconnect-codegen/src/main/java/org/deviceconnect/codegen/languages/AbstractPluginCodegenConfig.java:62-73 | first-occurrence order: the profiles of the first j paths are a prefix of all the profiles |
| PluginGrouping.IndexOf | DeviceConnectCodegen/modules/deviceconnect-codegen/src/main/java/org/deviceconnect/codegen/languages/AbstractPluginCodegenConfig.java:67 | `profiles.get` finds the profile kept under that name, or reports none is kept |
| PluginGrouping.FlagsStep | DeviceConnectCodegen/modules/deviceconnect-codegen/src/main/java/org/deviceconnect/codegen/languages/AbstractPluginCodegenConfig.java:91-139 | setting the flags of one added API keeps each profile flag true iff some API of that kind is in the list |
| PluginGrouping.AddApi | DeviceConnectCodegen/modules/deviceconnect-codegen/src/main/java/org/deviceconnect/codegen/languages/AbstractPluginCodegenConfig.java:76-151 | one operation throws as `ApiOf` does, or its API is added to its profile with the flags kept in agreement, leaving the other profiles as they were |
| PluginGrouping.AddPathApis | DeviceConnectCodegen/modules/deviceconnect-codegen/src/main/java/org/deviceconnect/codegen/languages/AbstractPluginCodegenConfig.java:76-152 | the inner loop throws iff one of the path's operations fails, else it groups all of them |
| PluginGrouping.AddPath | DeviceConnectCodegen/modules/deviceconnect-codegen/src/main/java/org/deviceconnect/codegen/languages/AbstractPluginCodegenConfig.java:62-153 | one path: its profile is found or appended at the end, and the grouping extends to its operations |
| PluginGrouping.GroupProfiles | DeviceConnectCodegen/modules/deviceconnect-codegen/src/main/java/org/deviceconnect/codegen/languages/AbstractPluginCodegenConfig.java:61-153 | NullPointerException iff some operation's API cannot be built. Otherwise the profiles come in first-occurrence order, each with its own operations' APIs in order and each flag set iff one of them is of that kind |

## Left out

- The `example()` JSON pretty-printing of a message (HtmlDocsCodegenConfig.java:290-307) goes through the Jackson library.
- Mustache templates, resource and template loading, and file copying and writing are left out. `prepareProfileTemplates`, `generateProfile` and `copyProfileSpecFiles` form the second half of `preprocessSwagger`. All of this is I/O.
- The standard profile class names are a parameter of `StandardClassName`, not read from a resource.
- `supportingFiles` registration, `templateDir`, and the `additionalProperties` plumbing are framework glue. This includes `profile.putAll(additionalProperties)` in the grouping loop.
- `DConnectOperation.parse` is not part of this model. Its result is the `dconnect` field of an operation: the optional operation type and the optional event model.
- `getDeclaration`, `getResponseCreation` and `getEventCreation` are abstract hooks. An API record keeps the value each hook would receive: the parameters, the "200" response, the event model.
- `getCPResourcePath` depends on the platform's file separator.
- Logging through `LOGGER` is left out.
- Case mapping and `equalsIgnoreCase` cover ASCII letters only. Locale and Unicode case rules are left out.
- MessageDocs.CreateMessageDocument: the order of the rows of a merged (composed) model is any order of its keys, because `getProperties` returns a `HashMap` with no defined iteration order. Keys, values and the row shape are stated; the order is not.
- The iteration order of `profileSpecs` is left open: any order of its keys. The sorted lists are stated, and `SortedUnique` shows they do not depend on that order.
- Null keys and values are not modelled in the places where the source never produces them: profile names, parameter names, map values of responses and properties, and the path map and info of a specification. A property's type is a non-null string, because every Swagger property class fixes it.
- PluginPaths.ToUpperCapital: does not model a null argument (a NullPointerException); it models the empty string, which throws StringIndexOutOfBoundsException.
- The `x-type` vendor extension is modelled as an optional string. A non-string value, which would throw ClassCastException at HtmlDocsCodegenConfig.java:142, is not modelled.
- The parameter `type()` is evaluated eagerly and kept as a `Result`. Mustache would call it lazily from the template.
- Flattener.ResponseParamDoc.constructor: the constructor receives the common name precomputed. It requires that the name equals `convertPropertyToCommonName(prop)`, because the caller in the model has already computed that name or thrown.
- The branch at HtmlDocsCodegenConfig.java:192 repeats the test of line 189, so it can never be taken; the model has no such branch. An array property without items therefore throws at line 191.
