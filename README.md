# Typed UUID identifiers: a Dafny model

This project models the core of a PHP library that wraps UUID strings in
typed identifier classes (`UserId`, `OrderId`, ...). All of them share one
implementation, `Identifier`. The model covers:

- the `Identifier` value type (`src/Identifier.php`): the validating
  constructor, the factories `fromString`, `fromUuid`, `fromClass` and
  `fromAny`, the three string forms, and the comparisons `equals` and `same`;
- the kind registry that the column types read as `Identifier::$map` (the
  tests assign it; `src/Identifier.php` does not declare it), which pairs
  every identifier class with a 12-digit node string, and its reverse lookup
  through `array_flip`;
- the two Doctrine column types: `IdentifierType` for one identifier,
  `IdentifierArrayType` for a JSON list of identifiers. Both recover each
  value's class from the node suffix of its UUID string.

Every operation in the core is a case analysis without mutation, so the
model is built from datatypes, functions and lemmas:

- `Identifier(kind, uuid)` is a value. `Kind` names the final subclass.
  `instanceof static` becomes equality of kinds.
- `Value` stands for PHP's `mixed`.
- Thrown exceptions become `Err` values of a `Result`.

Modules, one per file:

| file | module | models |
|---|---|---|
| `wrappers.dfy` | `Wrappers` | `Option`, `Result`, and `ArrayMap` (`array_map` with a callback that may throw) |
| `uuid.dfy` | `Uuid` | `Uuid::isValid`, UUID objects seen through `toString()`, `substr($s, 24)` |
| `identifiers.dfy` | `Identifiers` | `src/Identifier.php`, plus the `from`/`try` factories the tests use |
| `kind_registry.dfy` | `KindRegistry` | the registry read as `Identifier::$map` (an explicit parameter here), `array_flip` and the node lookup |
| `doctrine_identifier_type.dfy` | `DoctrineIdentifierType` | `src/Doctrine/IdentifierType.php` |
| `doctrine_identifier_array_type.dfy` | `DoctrineIdentifierArrayType` | `src/Doctrine/IdentifierArrayType.php` |
| `scenarios.dfy` | `Scenarios` | the scenarios of `tests/IdentifierTest.php`, plus an example of the column types on the tests' registry |

Conventions the model takes from the code:

- `fromAny` refuses an identifier of another class with
  `Unexpected any: <class>`. It does not re-wrap it.
- `same(null, null)` is false.
- Equality requires the same class. The one exception is comparison with a
  bare string or a UUID object: that compares strings only.
- No registration step checks that nodes are unique. `array_flip` lets the
  later class win on a shared node (`FlipLastWins`). The two `WriteThenRead`
  lemmas assume distinct nodes (`NodesDistinct`). The two `ReadThenWrite`
  lemmas do not need that assumption.

Modelling notes:

- The registry is a list of (class, node) pairs with no class twice
  (`KindsDistinct`), as in a PHP array keyed by class name.
- In `IdentifierArrayType::convertToPHPValue` the variable `$value` is
  reassigned to the decoded list. An unknown node therefore reports the
  decoded list (`DecodeElement`). Undecodable JSON reports the raw text.

Where the model departs from the code as written, "## Left out" says so. That
covers three things: the undeclared static property `Identifier::$map`, the
private-constructor call in the column types, and the `from`/`try` factories.

## Model

| member | source | states |
|---|---|---|
| `Wrappers.ArrayMap` | src/Doctrine/IdentifierArrayType.php:59-68 | the list converts iff every element converts; the result keeps length and order, element by element; otherwise the error is that of the first failing element, and every element before it converted |
| `Uuid.IsValid` | src/Identifier.php:113-116 | a valid string is 36 characters long and every character is a hex digit or a hyphen, so it is plain ASCII; the definition is the 8-4-4-4-12 hexadecimal layout of section 3 of RFC 4122 |
| `Uuid.NodeOf` | src/Doctrine/IdentifierType.php:48 | `substr($s, 24)`: empty for strings of at most 24 characters, otherwise the string is its first 24 characters followed by the result |
| `Uuid.NodeOfValid` | src/Doctrine/IdentifierArrayType.php:61 | on a valid UUID string the suffix is exactly the 12 hex digits of the node field |
| `Identifiers.New` | src/Identifier.php:21-28 | a string succeeds iff it is a valid UUID and is then stored exactly as given; an invalid string fails with `"<input>" is not valid uuid.`; a UUID object always succeeds and stores its `toString()`; every success is of the requested class |
| `Identifiers.FromString` | src/Identifier.php:86-89 | succeeds iff the string is a valid UUID; then `toString()` gives back the string exactly (no case normalisation); otherwise the error message is `"<input>" is not valid uuid.` |
| `Identifiers.FromUuid` | src/Identifier.php:108-111 | always succeeds, with the requested class and the object's `toString()` |
| `Identifiers.FromClass` | src/Identifier.php:53-63 | a string goes through `fromString`, a UUID object through `fromUuid`; a success is of the requested class (the `\assert` on line 59) |
| `Identifiers.FromAny` | src/Identifier.php:91-106 | an identifier of the called class comes back unchanged; a UUID object goes through `fromUuid`; a string goes through `fromString`; anything else, including another class's identifier, fails with `Unexpected any: <debug type>`; every success is of the called class |
| `Identifiers.ToString` | src/Identifier.php:35-38 | `toString()` is the stored string: with the class it makes up the whole identifier, and it is a valid UUID for any identifier a factory made |
| `Identifiers.MagicToString` | src/Identifier.php:30-33 | `__toString()` returns the same string as `toString()` |
| `Identifiers.JsonSerialize` | src/Identifier.php:43-46 | `jsonSerialize()` returns the same bare string as `toString()` |
| `Identifiers.FromStringOfToString` | src/Identifier.php:35-38 | parsing an identifier's string as its own class gives back the same identifier |
| `Identifiers.Equals` | src/Identifier.php:123-134 | against an identifier: true iff it is the same class with the same string; against a string or UUID object: true iff the strings are equal; against anything else: false |
| `Identifiers.Same` | src/Identifier.php:68-79 | true iff both sides are present and are the same identifier (same class, same string) |
| `Identifiers.SameSymmetric` | src/Identifier.php:68-79 | `same(a, b) == same(b, a)` |
| `Identifiers.SameReflexive` | src/Identifier.php:68-79 | `same(x, x)` for every present x; `same(null, null)` is false |
| `Identifiers.EqualsAcrossKinds` | tests/IdentifierTest.php:85-96 | two classes with the same string are neither `equals` nor `same`, but the identifier equals the bare string |
| `Identifiers.FirstPresent` | tests/IdentifierTest.php:66-74 | absent iff every candidate is null; otherwise the index of a non-null candidate with only nulls before it |
| `Identifiers.From` | tests/IdentifierTest.php:31-46 | `fromAny` of the first non-null candidate; `Expect at least one non nullable value` when all are null |
| `Identifiers.Try` | tests/IdentifierTest.php:51-64 | null when all candidates are null, otherwise the same outcome as `from` |
| `Identifiers.FromIgnoresLater` | tests/IdentifierTest.php:71 | once a candidate is present, appending more candidates does not change the result |
| `KindRegistry.Flip` | src/Doctrine/IdentifierType.php:51 | `array_flip($map)` has exactly the registered nodes as keys, and maps each to a class registered with that node |
| `KindRegistry.FlipLastWins` | src/Doctrine/IdentifierArrayType.php:57 | on a node shared by several classes, the flipped map holds the class registered last |
| `KindRegistry.FlipRecoversKind` | src/Doctrine/IdentifierArrayType.php:57-63 | with distinct nodes, every registered class is found again from its node |
| `KindRegistry.ResolveKind` | src/Doctrine/IdentifierType.php:48-51 | a class is found iff the suffix from index 24 is a registered node, and the class found is registered with that node |
| `KindRegistry.ResolveRegistered` | src/Doctrine/IdentifierArrayType.php:61-63 | with distinct nodes, a string whose suffix is a class's node resolves to that class |
| `DoctrineIdentifierType.ConvertToDatabaseValue` | src/Doctrine/IdentifierType.php:22-37 | null and `""` store null; a valid string is stored unchanged; an identifier or UUID object stores its `toString()`; any other value (including a non-empty invalid string) fails with a conversion error naming it; every stored string not taken from an identifier is a valid UUID |
| `DoctrineIdentifierType.ConvertToPHPValue` | src/Doctrine/IdentifierType.php:42-54 | null and `""` read as null; an unregistered suffix fails with a conversion error naming the value; a registered suffix succeeds iff the string is valid; a result carries the input string unchanged, and its class is the one registered for the suffix |
| `DoctrineIdentifierType.ReadThenWrite` | src/Doctrine/IdentifierType.php:28-53 | a valid string with a registered node, read and written back, is stored unchanged |
| `DoctrineIdentifierType.WriteThenRead` | src/Doctrine/IdentifierType.php:32-53 | with distinct nodes, an identifier stamped with its class's node is stored as its string and read back as itself |
| `DoctrineIdentifierArrayType.ConvertToDatabaseValue` | src/Doctrine/IdentifierArrayType.php:20-40 | null stores null; a non-array fails with a conversion error; a list succeeds iff every element is an identifier, and is then stored as their `toString()` values in the same order; otherwise the typed closure refuses the first element that is not an identifier |
| `DoctrineIdentifierArrayType.EncodeElement` | src/Doctrine/IdentifierArrayType.php:30 | the closure typed `Identifier` returns an identifier's `toString()` and refuses any other element with a type error naming it |
| `DoctrineIdentifierArrayType.DecodeElement` | src/Doctrine/IdentifierArrayType.php:60-66 | an unknown node fails with a conversion error naming the whole decoded list; a known node constructs that class from the unchanged string |
| `DoctrineIdentifierArrayType.ConvertToPHPValue` | src/Doctrine/IdentifierArrayType.php:45-69 | null reads as the empty list; undecodable text fails naming the text; a list succeeds iff every element has a registered node and is valid; the result keeps length and order, each element carries its string unchanged with the class registered for its node; otherwise the error is the first failing element's and nothing partial is returned |
| `DoctrineIdentifierArrayType.ReadThenWrite` | src/Doctrine/IdentifierArrayType.php:30-68 | a list that reads successfully is written back as the same list of strings |
| `DoctrineIdentifierArrayType.WriteThenRead` | src/Doctrine/IdentifierArrayType.php:30-68 | with distinct nodes, a list of identifiers each stamped with its class's node, written and read back, is the same list |
| `Scenarios.TestUuidsValid` | tests/IdentifierTest.php:12-13 | the two test UUIDs are valid |
| `Scenarios.FromRejectsBla` | tests/IdentifierTest.php:76-83 | `from('bla')` fails with `"bla" is not valid uuid.` |
| `Scenarios.FromFirstPresentWins` | tests/IdentifierTest.php:66-74 | `from(null, null, UUID2, UUID)` gives UUID2; `try(null, UUID)` gives UUID |
| `Scenarios.OnlyNulls` | tests/IdentifierTest.php:39-64 | `from(null)` fails with the missing-value message; `try(null)` is null |
| `Scenarios.EqualsScenario` | tests/IdentifierTest.php:85-96 | an identifier equals its own string, and not a `Test2Id` holding the same string |
| `Scenarios.ColumnScenario` | tests/IdentifierTest.php:15-20 | an example of the column types (the tests do not call them) on the tests' registry: each test UUID reads back as `TestId` in the single-identifier column, the two together read back as a list of `TestId`, and an unregistered node fails with a conversion error |

## Left out

- `KindRegistry.Registry` stands for `Identifier::$map`, which `src/Identifier.php` does not declare. Only the tests assign it (tests/IdentifierTest.php:17). The model passes the registry as an explicit parameter. As written, the lookups at src/Doctrine/IdentifierType.php:51 and src/Doctrine/IdentifierArrayType.php:57 read an undeclared static property, so PHP raises an `Error` there. In `IdentifierType` that happens for every value other than null and `""`. In `IdentifierArrayType` it happens for every stored text that decodes, the empty list included, which the model reads as `[]`. It also covers a string with an unregistered node, for which the model reports `ConversionFailed`. The `Error` is raised before the constructor is reached.
- `DoctrineIdentifierType.ConvertToPHPValue`, `DoctrineIdentifierArrayType.DecodeElement`, `DoctrineIdentifierArrayType.ConvertToPHPValue` and the `ReadThenWrite`/`WriteThenRead` lemmas of both column types model intended behaviour, not the code as written. `new $class($value)` (src/Doctrine/IdentifierType.php:53, src/Doctrine/IdentifierArrayType.php:65) calls the constructor that src/Identifier.php:21 declares `final private`. PHP then raises an `Error` for every registered node. The model uses the validating string constructor in its place.
- `Identifiers.From` and `Identifiers.Try` have no code in `src/Identifier.php`. Only the tests call them. Passing the first non-null candidate to `fromAny` is a choice made for this model. A `from` that re-tags another class's identifier would fit the tests equally well; this model refuses it with `Unexpected any`.
- `Uuid.NodeOf`: strings are modelled as sequences of characters, while PHP's `substr` counts bytes. On non-ASCII input the suffix can differ, and with it which error is reported. For example, a 36-character string that starts with `é` is 37 bytes long. On valid UUID strings the two agree, because those are plain ASCII (`Uuid.IsValid`).

- `generate()` (`Uuid::uuid6()`) depends on the clock and on randomness inside the UUID library. So the distinctness of two generated identifiers is not stated. The code does not stamp the class's node into generated UUIDs, so node-stamped generation is not modelled either.
- `toUuid()` and `isValid()` are plain calls into ramsey/uuid. `Uuid.IsValid` is the 8-4-4-4-12 hexadecimal layout of section 3 of RFC 4122. The library's own validator is not part of this model, including its tolerance of `urn:uuid:` prefixes and braces.
- UUID objects are seen only through `toString()`, which is assumed to give a canonical lower-case UUID (the `RawUuid` subset type).
- JSON encoding and decoding are library calls. The stored text is the list of strings it encodes (`JsonText.StringList`), or text that does not decode (`JsonText.Malformed`). Two things are not represented: JSON that decodes to something other than a list of strings, and a `json_encode` failure. Neither can arise for lists of valid UUID strings.
- PHP arrays with string or non-sequential keys are not modelled; lists are sequences. `array_map` keeps such keys, so `json_encode` would write an object.
- The texts of Doctrine's `ConversionException` messages belong to Doctrine. The model keeps only the offending value and the column type's name.
- Doctrine plumbing (`getSQLDeclaration`, `getName` apart from the name it returns, `requiresSQLCommentHint`, platform objects) is not modelled.
- The Symfony normalizer only delegates to `toString` and `fromClass`, which are modelled.
- PHP `serialize`/`unserialize` and the reflection the tests use to overwrite `$uuid` are test mechanics. `EqualsAcrossKinds` builds the other class's identifier directly instead.
- Class hierarchies between identifier classes are not modelled: every class is final, so `instanceof static` is equality of kinds.
