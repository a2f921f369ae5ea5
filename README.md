# ssb-subset-ql: the two query tiers, modelled in Dafny

ssb-subset-ql describes subsets of a Secure Scuttlebutt log as small
queries and compiles them to the operator trees of the ssb-db2 database.
It has two tiers, and both tiers export the same five operations:

- `validate` throws on a malformed query.
- `parse` returns the decoded or given query; it returns null, silently
  for a falsy query and otherwise with one warning.
- `toOperator` compiles a query to an operator tree.
- `stringify` writes a query as text.
- `isEquals` compares two QL0 queries; QL1's always throws.

**QL0** (`ql0.js`) is one flat record `{author, type, private}`. It
selects one author's public messages of one type, or all of that
author's private messages. The validator checks the fields in the order
of `EXPECTED_KEYS`.

**QL1** (`ql1.js`) is a tree of `and`/`or` nodes over `type` and
`author` leaves. Any node may also be given as its JSON text.

The model is organised as follows:

- `json.dfy` (module `Json`) holds JavaScript values. It defines the few
  JavaScript operations the tiers apply to them: truthiness, `typeof`,
  property reads, `Object.keys`, and the structural equality of
  `nano-equal`.
- `text.dfy` (module `JsonText`) holds string conversion and the JSON text
  of a flat record.
- `runtime.dfy` (module `Runtime`) holds three shared pieces:
  - the kinds of error the validators throw;
  - the host functions, passed in as parameters: `JSON.parse`,
    `JSON.stringify` and `isFeedId` from ssb-ref;
  - the value a validator inspects.
- `operators.dfy` (module `Operators`) holds the operator tree.
- `ql0.dfy` (module `Ql0`) and `ql1.dfy` (module `Ql1`) hold the two
  tiers.

The code is pure: every operation returns a value or throws. So every
operation is a function. A `throw` becomes a `Fail`/`Err` carrying the
kind of error, and a `console.warn` becomes a warning count.

Each tier's valid queries also get a meaning that does not depend on
the order of the checks:

- QL0: a `Ql0.Query` record.
- QL1: a `Ql1.Query` tree.

The lemmas tie `validate`, `parse`, `toOperator`, `stringify` and
`isEquals` to that meaning.

### Where the code and its own comments and tests differ

The model follows the code.

- **QL0 `stringify` and JSON.** The comment at `ql0.js:106` says the
  function builds the text by hand only to fix the order author, type,
  private. The test at `test/ql0.js:169-177` compares the output with
  `JSON.stringify` of the query.
  - As written, the two agree only for object queries whose author and
    type need no JSON escaping (`Ql0.StringifyIsJson`).
  - They disagree otherwise, and string queries give a text of
    "undefined" (see Findings).
- **The private/type rule.** The error text at `ql0.js:49` says that when
  private is true, type must be null. The check itself tests
  `obj.private && obj.type`, so an empty type also passes
  (`Ql0.PrivateTypeRule`).
- **The QL0 toOperator test.** The test at `test/ql0.js:161-164` expects
  an `and` without `isPublic()`. The code adds `isPublic()`, and so does
  the model.

## Model

| member | source | states |
|---|---|---|
| Ql0.CheckFields | ql0.js:31-46 | The field loop fails only with a missing or ill-typed field, and only for one of the fields it was asked to check. |
| Ql0.CheckFieldsPass | ql0.js:31-46 | The field loop passes exactly when every listed field is among the keys and has its demanded type. |
| Ql0.CheckFieldsFail | ql0.js:31-46 | The first missing or ill-typed field decides the error. Presence is tested before type. |
| Ql0.ExpectedFieldErrors | ql0.js:15-46 | Over EXPECTED_KEYS, the loop reports field f missing (or ill-typed) exactly when every field before f in the order author, type, private is fine and f is missing (or ill-typed). |
| Ql0.WellShapedKeys | ql0.js:28-46 | An object with at most three keys that has all three expected fields has exactly those three keys, each once. |
| Ql0.ShapeChecks | ql0.js:27-46 | The key count and the field loop both pass exactly on well-shaped objects. A string, array, number or boolean never passes. |
| Ql0.RulesOnShape | ql0.js:47-54 | On a well-shaped object, the truthiness rule means: private is true and the type is a non-empty string. The feed-id check reads the author string. |
| Ql0.Validate | ql0.js:21-55 | A query that passes is truthy, and it decodes, if it is a string, to a well-shaped object: at most three fields, a string `author`, a string or null `type` and a boolean `private`. The exact pass and fail conditions are in `Ql0.ValidateAccepts` and the `Validate*Errors` lemmas. |
| Ql0.ValidateAccepts | ql0.js:21-55 | validate passes exactly when the query is truthy and decodes, if it is a string, to a well-shaped object. That object must not be private with a non-empty type, and its author must be a feed id. |
| Ql0.ValidateEarlyErrors | ql0.js:22-30 | Each of these fires exactly when its rule is the first one broken: not truthy, not string or object, JSON.parse throws, null has no keys, too many fields. |
| Ql0.ValidateFieldErrors | ql0.js:28-46 | Missing field f, or ill-typed f, is thrown exactly when the key count is fine, every field before f passes, and f is missing, or present with the wrong type. |
| Ql0.ValidateStages | ql0.js:28-55 | Before the key count, validate fails with no field error. After it, validate fails as the field loop fails. Once the loop passes, validate passes or fails with one of the two rules. |
| Ql0.ValidateRuleErrors | ql0.js:47-54 | With the fields fine, the private/type error fires exactly when both are truthy. The feed-id error fires exactly when that rule holds and the author is not a feed id. |
| Ql0.ValidateCanonical | ql0.js:21-55 | A record laid out as `{author, type, private}` fails only on the private/type rule, then on the feed id, else passes. |
| Ql0.PrivateTypeRule | ql0.js:47-51 | A private query with an empty type passes and compiles as private. With a non-empty type it fails the private/type rule. |
| Ql0.Parse | ql0.js:61-78 | Exactly one warning when the query is truthy and the result is null. A non-null result is the decoded or given value, and it validates. On a non-string, the result is non-null exactly when validate passes. |
| Ql0.ParseValid | ql0.js:61-70 | A query that validates parses, with no warning, to the object validate examined. |
| Ql0.ParseAcceptsDoubleEncoded | ql0.js:61-67 | For the text of the text of a valid query: parse returns the inner string, while validate on the outer string fails with too many fields. |
| Ql0.ParseResultKinds | ql0.js:61-78 | parse returns null, a well-shaped valid object equal to what validate examined, or a string, and a string only for doubly encoded input. |
| Ql0.ParseAgreesWithValidate | ql0.js:61-78 | Apart from doubly encoded strings, parse returns non-null exactly when validate passes. |
| Ql0.ToOperator | ql0.js:85-97 | validate's error propagates unchanged. A valid query compiles to `Expected` of its record. Every leaf carries `dedicated`. |
| Ql0.Expected | ql0.js:88-96 | Both trees, `and(author, isPrivate)` for private and `and(author, type, isPublic)` for public, carry the flag on every leaf. |
| Ql0.ToOperatorDeterminesQuery | ql0.js:85-97 | Two queries with the same operator tree have the same author and privacy. When public, they also have the same type. |
| Ql0.CompilePublicScenario | ql0.js:90-95 | `{author:"@ABC=.ed25519", type:"vote", private:false}` with dedicated compiles to `and(author dedicated, type "vote" dedicated, isPublic)`. |
| Ql0.CompilePrivateScenario | ql0.js:88-89 | A private query with a null type, under the default flag, compiles to `and(author, isPrivate)` with a non-dedicated author. |
| Ql0.Stringify | ql0.js:103-112 | stringify returns text exactly when validate passes, and otherwise throws validate's error. |
| Ql0.TemplateArgs | ql0.js:104-105 | A query that validates is an object or a string. The three values stringify destructures from it are each a string, null, a boolean or undefined. |
| Ql0.StringifyIsJson | ql0.js:103-112 | For an object query needing no escapes, the text is the JSON of its three fields in the order author, type, private, whatever order its keys came in. |
| Ql0.StringifyRoundTrip | ql0.js:103-112 | For such a query, the text parses back silently to the canonical object, and isEquals calls the text and the query equal. |
| Ql0.Template | ql0.js:107-111 | The text starts with `{"author":"` and then the author's `String` text, unescaped. It ends with the `private` value's text and `}`. `Ql0.TemplateIsJson` and `Ql0.TemplateLength` say more. |
| Ql0.TemplateLength | ql0.js:107-111 | The template adds 34 characters to the three values it writes. |
| Ql0.CanonicalLength | ql0.js:106-110 | The JSON text of a record adds the same 34 characters to the escaped author, the escaped type and the flag. |
| Ql0.StringifyUnescaped | ql0.js:108-110 | As written: a type holding a character JSON must escape makes the text differ from the query's JSON text. |
| Ql0.StringifyOfStringQuery | ql0.js:104-110 | As written: every valid string query gives the same text, `{"author":"undefined","type":"undefined","private":undefined}`. |
| Ql0.StringifyCanonical | ql0.js:103-112 | The corrected stringify throws validate's error, or writes the JSON text, with escapes, of the parsed query's record in canonical order. |
| Ql0.StringifyCanonicalRoundTrip | ql0.js:103-112 | The corrected text of every valid query, string or object, parses back silently to its canonical object, and isEquals calls the two equal. |
| Ql0.StringifyCanonicalAgrees | ql0.js:103-112 | On object queries needing no escapes, the corrected and the original stringify agree. |
| Ql0.CanonicalRecord | ql0.js:106-110 | The canonical layout of a record is a flat, well-shaped object with distinct keys that gives the record back. |
| Ql0.ShapedEqual | ql0.js:119-123 | On two well-shaped objects, deep equality is equality of their records. |
| Ql0.ShapedDeepEqual | ql0.js:122 | On two well-shaped objects, deep equality compares exactly author, type and private. |
| Ql0.IsEqualsReflexive | ql0.js:119-123 | Every query equals itself, the invalid ones included. |
| Ql0.IsEqualsSymmetric | ql0.js:119-123 | isEquals does not depend on the order of its arguments. |
| Ql0.IsEquals | ql0.js:119-123 | Two queries that both parse to null are equal. When only one of them parses to null, they are not equal. `Ql0.IsEqualsMeans` gives the full meaning. |
| Ql0.IsEqualsMeans | ql0.js:119-123 | Two queries are equal exactly when both are invalid, or both are valid with the same record. |
| Ql0.EqualQueriesCompileAlike | ql0.js:119-123 | A valid query and one isEquals calls equal to it compile to the same tree. |
| Ql0.SameFieldsValidate | ql0.js:27-54 | validate reads of an object only its key count and the three fields. |
| Ql0.KeyOrderIrrelevant | test/ql0.js:179-186 | Two objects holding the same properties in any order validate alike, stringify alike and compile alike, and when valid they are equal. |
| Ql1.Validate | ql1.js:7-13 | validate passes only on a truthy string or object whose decoding, or the object itself, is an object. |
| Ql1.ValidateArgs | ql1.js:20-22 | When the loop over `args` passes, every argument is truthy and is, or decodes to, an object. It fails only on a non-empty list. `Ql1.ValidateArgsPass` and `Ql1.ValidateArgsFirstError` give the exact meaning. |
| Ql1.ValidateNode | ql1.js:14-37 | A node passes only when it is an object. |
| Ql1.ValidateArgsPass | ql1.js:20-22 | The loop over `args` passes exactly when every argument validates. |
| Ql1.ValidateArgsFirstError | ql1.js:20-22 | The first argument that fails decides the loop's error. |
| Ql1.ValidateNodeErrors | ql1.js:14-37 | An `and`/`or` node with an array takes its arguments' verdict. Every other node throws each error exactly when its rule is the first broken: no properties, missing op, args not an array, type without string, author without feed, unknown op. It passes exactly as a leaf with its string. |
| Ql1.Parse | ql1.js:40-57 | parse as intended, with QL1's validate. It never throws: null silently on a falsy query, null with one warning on any failure, and otherwise the decoded or given value, which validates. |
| Ql1.ParseAsWritten | ql1.js:40-57 | parse as written. It agrees with `Ql1.Parse` except where that prints a warning for a query whose string conversion throws; there it throws. |
| Ql1.ParseThrowsOnOwnToString | ql1.js:53-55 | `{"toString": 1}` and an array holding it fail validation, and then the warning in `catch` throws. |
| Ql1.ParseValid | ql1.js:40-49 | A query that validates parses, with no warning, to the object validate examined. |
| Ql1.ParseAcceptsDoubleEncoded | ql1.js:43-46 | parse returns the inner string of a doubly encoded valid query, while validate on the outer string finds no op. |
| Ql1.ParseAgreesWithValidate | ql1.js:40-57 | Apart from doubly encoded strings, parse returns non-null exactly when validate passes. |
| Ql1.ToOperator | ql1.js:59-74 | validate's error propagates unchanged, and every leaf of the tree carries `dedicated`. |
| Ql1.CompileArgs | ql1.js:64 | Mapping the arguments yields one operator per argument, each carrying the flag. |
| Ql1.CompileArgsAll | ql1.js:63-68 | When each argument compiles, the map yields their trees in order. |
| Ql1.Compile | ql1.js:63-73 | The operator tree of a query tree carries the flag on every leaf. |
| Ql1.DecompileCompile | ql1.js:63-73 | Compiling loses nothing: the query tree is read back from its operator tree. |
| Ql1.DenotesValid | ql1.js:7-38 | A value that describes a tree validates. |
| Ql1.DenotesSound | ql1.js:59-74 | A value that describes a tree validates and compiles to that tree's operator tree. |
| Ql1.DenotesComplete | ql1.js:7-38 | Every query that validates describes some tree. |
| Ql1.NodeComplete | ql1.js:14-37 | Every node that validates describes some tree. |
| Ql1.ArgsComplete | ql1.js:20-22 | Arguments that all validate describe a sequence of trees. |
| Ql1.ValidateMeans | ql1.js:7-74 | validate passes exactly on the values that describe a tree. That tree is unique, and toOperator compiles it. |
| Ql1.EncodeDenotes | test/ql1.js:31-42 | Every tree has an object form `{op, args}` / `{op, string}` / `{op, feed}`, and that form describes it. |
| Ql1.EncodeCompiles | ql1.js:59-74 | The object form of every tree validates and compiles to the tree's operator tree. |
| Ql1.TextDenotes | ql1.js:12 | A JSON text of a tree's object form describes the tree. |
| Ql1.TextArgs | ql1.js:59-65 | An `and` node whose arguments are JSON texts of trees describes the `and` of those trees and compiles to it. |
| Ql1.NestedError | ql1.js:16-22 | Inside an `and`/`or` node, the first argument that fails decides the node's error, unchanged. |
| Ql1.AuthorFeedNotChecked | ql1.js:29-34 | An author leaf passes with any feed string. |
| Ql1.EmptyNodesAccepted | ql1.js:16-22 | `and` and `or` with an empty argument array validate and compile to an empty And or Or. |
| Ql1.CompileScenario | test/ql1.js:12-29 | `and(type "vote", author alice)` with dedicated compiles to `And(Type("vote", dedicated), Author(alice, dedicated))`. |
| Ql1.StringifyRoundTrip | ql1.js:76-78 | An object query whose JSON text decodes back to it is, as text, the same query: valid alike, parsed to the object, compiled alike. |
| Ql1.IsEquals | ql1.js:80-85 | isEquals throws "not supported" for every pair. |

## Left out

- `JSON.parse` and `JSON.stringify` are parameters of the model.
  - Of the decoder, the model assumes only that it never yields a value
    larger than its text.
  - Where stated, it also assumes the decoder reads back the JSON text of
    a flat record.
  - There is no JSON lexer.
- `Ref.isFeedId` from ssb-ref is an uninterpreted parameter. The feed-id
  syntax is not modelled.
- Strings are sequences of Unicode code points, while JavaScript counts
  UTF-16 code units. Only one thing depends on the difference: the key
  count `Object.keys` gives a QL0 query text that decodes to a short
  string with characters outside the Basic Multilingual Plane. For
  example, the source rejects the decoded string "😀😀" (four code units)
  with "too many fields", while the model reports a missing author field.
  Either way the query is invalid.
- `String(v)` (`JsonText.ToJsString`) is modelled only for the values the
  QL0 template is given: strings, null, booleans and undefined.
- Numbers are integers. Floating point is not represented: a query can
  hold a non-integer number, such as an author of 1.5, but such a number
  fails the same checks as a non-zero integer. NaN, functions, symbols and
  cyclic objects are not represented either.
- Error message text is not modelled; each `throw` is an error kind. The
  text passed to `console.warn` is not modelled either; the model counts
  the warnings.
- The ssb-db2 operator constructors (`and`, `or`, `type`, `author`,
  `isPrivate`, `isPublic`) build plain data. How the database flattens or
  evaluates them is not part of this model.
- `Object.keys` gives the insertion order. Engines put integer-like keys
  first, but the validators only count keys and test membership, so
  nothing here depends on that order.
- Objects are modelled by their own enumerable properties only. A property
  read in JavaScript also finds inherited ones: `toString`, `valueOf`,
  `constructor` and the rest of `Object.prototype`. None of them is named
  `author`, `type`, `private`, `op`, `args`, `string` or `feed`, so the
  reads the validators make find only own properties. The string
  conversions that do reach `toString` are the next two lines and the
  first row of "## Findings".
- Ql0.Validate: the messages at ql0.js:29 and ql0.js:33 turn the object
  into a string. For an object with its own `toString` key, or an array
  holding one, that conversion throws a TypeError, which takes the place
  of TooManyFields or MissingField. The model reports the intended kind;
  the query is rejected either way.
- Ql1.ValidateNode: the message at ql1.js:36 turns the `op` value into a
  string, so the same TypeError takes the place of UnknownOp.
- Ql1.Stringify: it is `JSON.stringify` itself, a parameter, so it has no
  contract of its own. What the tier needs of it is stated in
  `Ql1.StringifyRoundTrip`.
- Ql0.IsEqualsMeans: it excludes doubly encoded strings. On those, parse
  returns a string and isEquals compares strings. `Ql0.ParseResultKinds`
  covers that case.
- Ql0.StringifyIsJson: it covers object queries whose author and type
  need no escaping only. The other cases are the findings below.

## Findings

| source | as written | input that shows it | evidently intended | confidence | as-written member | corrected member |
|---|---|---|---|---|---|---|
| ql1.js:54 | the `catch` block of parse builds its warning with `'Error parsing QL1 query: ' + query` | the object `{"toString": 1}`, or an array holding it: validate throws a missing-op error, then the concatenation finds no usable `toString` or `valueOf` and throws a TypeError out of parse | parse never throws and returns null with a warning, as QL0's parse does by building its warning with `JSON.stringify` (ql0.js:75) | not executed | Ql1.ParseThrowsOnOwnToString | Ql1.Parse |
| ql0.js:108-110 | stringify puts the author and the type between quotes without JSON escaping | an object query with type `a"b` gives the text `..."type":"a"b"...`, which is not the JSON of the query and does not decode back | the JSON text of the three fields, escaped as `JSON.stringify` escapes them, so that parse(stringify(q)) equals q | not executed | Ql0.StringifyUnescaped | Ql0.StringifyCanonicalRoundTrip |
| ql0.js:105 | stringify destructures the fields from the query as given rather than from its decoding, so a string query yields undefined for all three | the valid string query `{"author":"@ABC=.ed25519","type":"vote","private":false}` gives `{"author":"undefined","type":"undefined","private":undefined}` | the canonical text of the decoded query; the JSDoc at ql0.js:99-102 types the parameter as a QL0 object, unlike `string \| QueryQL0` for parse, toOperator and isEquals, but the validate it calls accepts strings, so a string is let through and gets this text instead of an error | not executed | Ql0.StringifyOfStringQuery | Ql0.StringifyCanonical |
