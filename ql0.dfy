/** QL0: the flat query `{author, type, private}`, which selects one
    author's public messages of one type, or that author's private
    messages. Its validator, best-effort parser, compiler to an operator
    tree, canonical serialiser and equality test. */
module Ql0 {
  import opened Json
  import opened JsonText
  import opened Runtime
  import opened Operators

  /** EXPECTED_KEYS, in the order the validator checks them */
  const ExpectedKeys: seq<Field> := [AuthorField, TypeField, PrivateField]

  function Name(f: Field): string {
    match f
    case AuthorField => "author"
    case TypeField => "type"
    case PrivateField => "private"
  }

  /** Where `f` stands in ExpectedKeys */
  function Position(f: Field): nat {
    match f
    case AuthorField => 0
    case TypeField => 1
    case PrivateField => 2
  }

  /** The type the validator demands of a field's value */
  predicate HasFieldType(f: Field, v: Value) {
    match f
    case AuthorField => v.Str?
    case TypeField => v.Str? || v.Null?
    case PrivateField => v.Bool?
  }

  /** Field `f` is among `keys` and its value has the demanded type */
  predicate FieldOk(obj: Value, keys: seq<string>, f: Field) {
    Name(f) in keys && HasFieldType(f, Get(obj, Name(f)))
  }

  /** `Ref.isFeedId(v)`, which is false of anything but a string */
  predicate IsFeedIdValue(env: Env, v: Value) {
    v.Str? && env.isFeedId(v.s)
  }

  /** The loop over EXPECTED_KEYS: each key present, then its value's type */
  function CheckFields(obj: Value, keys: seq<string>, fields: seq<Field>): (r: Outcome)
    ensures r.Fail? ==> (r.error.MissingField? || r.error.WrongFieldType?) && r.error.field in fields
  {
    if fields == [] then Pass
    else
      var f := fields[0];
      if Name(f) !in keys then Fail(MissingField(f))
      else if !HasFieldType(f, Get(obj, Name(f))) then Fail(WrongFieldType(f))
      else CheckFields(obj, keys, fields[1..])
  }

  /** `validate(query)`: Pass when it returns, the first rule it breaks when
      it throws */
  function Validate(env: Env, q: Value): (r: Outcome)
    ensures r.Pass? ==> Truthy(q) && Subject(env, q).Some? && WellShaped(Subject(env, q).value)
  {
    if !Truthy(q) then Fail(NotTruthy)
    else if !q.Str? && !IsObjectKind(q) then Fail(NotStringOrObject)
    else match Subject(env, q)
      case None => Fail(DecodeFailed)
      case Some(obj) =>
        match ObjectKeys(obj)
        case None => Fail(NullHasNoProperties)
        case Some(keys) =>
          if |keys| > |ExpectedKeys| then Fail(TooManyFields)
          else match CheckFields(obj, keys, ExpectedKeys)
            case Fail(e) => Fail(e)
            case Pass =>
              if Truthy(Get(obj, "private")) && Truthy(Get(obj, "type")) then Fail(PrivateWithType)
              else if !IsFeedIdValue(env, Get(obj, "author")) then Fail(InvalidFeedId)
              else ShapeChecks(obj); Pass
  }

  // ---------------------------------------------------------------------
  // What a valid query is, stated without the order of the checks

  /** An object with at most three properties, among them author (a
      string), type (a string or null) and private (a boolean) */
  predicate WellShaped(obj: Value) {
    && obj.Obj?
    && |obj.fields| <= |ExpectedKeys|
    && HasKey(obj.fields, "author") && Lookup(obj.fields, "author").Str?
    && HasKey(obj.fields, "type") && (Lookup(obj.fields, "type").Str? || Lookup(obj.fields, "type").Null?)
    && HasKey(obj.fields, "private") && Lookup(obj.fields, "private").Bool?
  }

  /** Well shaped, not private with a non-empty type (an empty type passes
      the truthiness test), and authored by a feed id */
  predicate ValidRecord(env: Env, obj: Value) {
    && WellShaped(obj)
    && !(Get(obj, "private").b && Get(obj, "type").Str? && Get(obj, "type").s != "")
    && env.isFeedId(Get(obj, "author").s)
  }

  predicate ValidQuery(env: Env, q: Value) {
    Truthy(q) && Subject(env, q).Some? && ValidRecord(env, Subject(env, q).value)
  }

  /** The type a query names: a string, or null */
  function TypeArg(v: Value): Option<string> {
    if v.Str? then Some(v.s) else None
  }

  /** A valid query as a typed record */
  datatype Query = Query(author: string, msgType: Option<string>, isPrivate: bool)

  function RecordOf(obj: Value): Query
    requires WellShaped(obj)
  {
    Query(Get(obj, "author").s, TypeArg(Get(obj, "type")), Get(obj, "private").b)
  }

  /** The record's properties in the canonical order author, type, private */
  function Canonical(r: Query): (fields: seq<(string, Value)>)
    ensures Flat(fields)
  {
    [("author", Str(r.author)),
     ("type", if r.msgType.Some? then Str(r.msgType.value) else Null),
     ("private", Bool(r.isPrivate))]
  }

  lemma {:induction false} CheckFieldsPass(obj: Value, keys: seq<string>, fields: seq<Field>)
    ensures CheckFields(obj, keys, fields).Pass? <==>
      forall i :: 0 <= i < |fields| ==> FieldOk(obj, keys, fields[i])
    decreases fields
  {
    if fields != [] {
      CheckFieldsPass(obj, keys, fields[1..]);
      assert forall i :: 1 <= i < |fields| ==> fields[i] == fields[1..][i - 1];
    }
  }

  /** The first field that is missing or ill-typed decides the error */
  lemma {:induction false} CheckFieldsFail(obj: Value, keys: seq<string>, fields: seq<Field>, i: nat)
    requires i < |fields|
    requires forall j :: 0 <= j < i ==> FieldOk(obj, keys, fields[j])
    ensures Name(fields[i]) !in keys ==> CheckFields(obj, keys, fields) == Fail(MissingField(fields[i]))
    ensures Name(fields[i]) in keys && !HasFieldType(fields[i], Get(obj, Name(fields[i]))) ==>
      CheckFields(obj, keys, fields) == Fail(WrongFieldType(fields[i]))
    ensures FieldOk(obj, keys, fields[i]) ==>
      CheckFields(obj, keys, fields) == CheckFields(obj, keys, fields[i + 1..])
    decreases i
  {
    if i > 0 {
      assert FieldOk(obj, keys, fields[0]);
      CheckFieldsFail(obj, keys, fields[1..], i - 1);
      assert fields[1..][i - 1..] == fields[i..];
      assert fields[1..][i..] == fields[i + 1..];
    }
  }

  /** Three distinct names in at most three properties: exactly those three,
      each once */
  lemma WellShapedKeys(obj: Value)
    requires WellShaped(obj)
    ensures |obj.fields| == 3 && DistinctKeys(obj.fields)
    ensures forall i :: 0 <= i < 3 ==> obj.fields[i].0 in ["author", "type", "private"]
  {
    var keys := KeysOf(obj.fields);
    ThreeNames(keys);
    assert forall i :: 0 <= i < |obj.fields| ==> obj.fields[i].0 == keys[i];
  }

  /** At most three keys among which the three names: the keys are those
      names, each once */
  lemma ThreeNames(keys: seq<string>)
    requires |keys| <= 3 && "author" in keys && "type" in keys && "private" in keys
    ensures |keys| == 3
    ensures forall i, j :: 0 <= i < j < 3 ==> keys[i] != keys[j]
    ensures forall i :: 0 <= i < 3 ==> keys[i] in ["author", "type", "private"]
  {
    var a :| 0 <= a < |keys| && keys[a] == "author";
    var t :| 0 <= t < |keys| && keys[t] == "type";
    var p :| 0 <= p < |keys| && keys[p] == "private";
    assert a != t && t != p && a != p;
    assert forall i :: 0 <= i < |keys| ==> keys[i] == keys[a] || keys[i] == keys[t] || keys[i] == keys[p];
  }

  /** The key count and the field loop pass exactly on well-shaped values */
  lemma ShapeChecks(obj: Value)
    requires ObjectKeys(obj).Some?
    ensures (|ObjectKeys(obj).value| <= |ExpectedKeys| && CheckFields(obj, ObjectKeys(obj).value, ExpectedKeys).Pass?)
      <==> WellShaped(obj)
  {
    var keys := ObjectKeys(obj).value;
    CheckFieldsPass(obj, keys, ExpectedKeys);
    assert ExpectedKeys[0] == AuthorField && ExpectedKeys[1] == TypeField && ExpectedKeys[2] == PrivateField;
    if !obj.Obj? {
      NamedKeyNotIndex(if obj.Str? then |obj.s| else if obj.Arr? then |obj.items| else 0, "author");
      assert !FieldOk(obj, keys, ExpectedKeys[0]);
    }
  }

  /** On a well-shaped object the private/type rule reads as the record's */
  lemma RulesOnShape(env: Env, obj: Value)
    requires WellShaped(obj)
    ensures (Truthy(Get(obj, "private")) && Truthy(Get(obj, "type")))
      <==> (Get(obj, "private").b && Get(obj, "type").Str? && Get(obj, "type").s != "")
    ensures IsFeedIdValue(env, Get(obj, "author")) <==> env.isFeedId(Get(obj, "author").s)
  {
  }

  /** validate accepts exactly the valid queries */
  lemma ValidateAccepts(env: Env, q: Value)
    ensures Validate(env, q).Pass? <==> ValidQuery(env, q)
  {
    if Truthy(q) && (q.Str? || IsObjectKind(q)) && Subject(env, q).Some? {
      var obj := Subject(env, q).value;
      if ObjectKeys(obj).Some? {
        ShapeChecks(obj);
        if WellShaped(obj) {
          RulesOnShape(env, obj);
        }
      } else {
        assert !obj.Obj?;
      }
    } else if Truthy(q) && !q.Str? {
      assert Subject(env, q) == Some(q);
      assert !q.Obj?;
    }
  }

  /** The errors validate throws before it looks at any field: each one
      fires exactly when its rule is the first one broken */
  lemma ValidateEarlyErrors(env: Env, q: Value)
    ensures Validate(env, q) == Fail(NotTruthy) <==> !Truthy(q)
    ensures Validate(env, q) == Fail(NotStringOrObject) <==> Truthy(q) && !q.Str? && !IsObjectKind(q)
    ensures Validate(env, q) == Fail(DecodeFailed) <==> Truthy(q) && q.Str? && env.decode(q.s).None?
    ensures Validate(env, q) == Fail(NullHasNoProperties) <==>
      Truthy(q) && (q.Str? || IsObjectKind(q)) && Subject(env, q).Some? && ObjectKeys(Subject(env, q).value).None?
    ensures Validate(env, q) == Fail(TooManyFields) <==> Examined(env, q) && |SeenKeys(env, q)| > |ExpectedKeys|
  {
    if Truthy(q) && (q.Str? || IsObjectKind(q)) {
      if q.Str? {
        assert Subject(env, q) == env.decode(q.s);
      } else {
        assert Subject(env, q) == Some(q);
      }
      ValidateStages(env, q);
    }
  }

  /** Every expected field before position `n` is present and well typed */
  predicate OkBefore(obj: Value, keys: seq<string>, n: nat) {
    forall j :: 0 <= j < n && j < |ExpectedKeys| ==> FieldOk(obj, keys, ExpectedKeys[j])
  }

  /** The field loop reports the first field, in the order author, type,
      private, that is missing or ill-typed */
  lemma ExpectedFieldErrors(obj: Value, keys: seq<string>, f: Field)
    ensures CheckFields(obj, keys, ExpectedKeys) == Fail(MissingField(f)) <==>
      OkBefore(obj, keys, Position(f)) && Name(f) !in keys
    ensures CheckFields(obj, keys, ExpectedKeys) == Fail(WrongFieldType(f)) <==>
      OkBefore(obj, keys, Position(f)) && Name(f) in keys && !HasFieldType(f, Get(obj, Name(f)))
  {
    assert ExpectedKeys[Position(f)] == f;
    if OkBefore(obj, keys, Position(f)) {
      CheckFieldsFail(obj, keys, ExpectedKeys, Position(f));
      if FieldOk(obj, keys, f) {
        var r := CheckFields(obj, keys, ExpectedKeys[Position(f) + 1..]);
        assert r.Fail? ==> r.error.field in ExpectedKeys[Position(f) + 1..];
      }
    } else {
      var k := if !FieldOk(obj, keys, ExpectedKeys[0]) then 0 else 1;
      assert k < Position(f) && !FieldOk(obj, keys, ExpectedKeys[k]);
      CheckFieldsFail(obj, keys, ExpectedKeys, k);
    }
  }

  /** The field errors: too many keys is checked before any field, and the
      fields go in the order author, type, private, each first for presence,
      then for its type */
  lemma ValidateFieldErrors(env: Env, q: Value, f: Field)
    ensures Validate(env, q) == Fail(MissingField(f)) <==>
      Examined(env, q) && |SeenKeys(env, q)| <= |ExpectedKeys| && OkBefore(Subject(env, q).value, SeenKeys(env, q), Position(f))
      && Name(f) !in SeenKeys(env, q)
    ensures Validate(env, q) == Fail(WrongFieldType(f)) <==>
      Examined(env, q) && |SeenKeys(env, q)| <= |ExpectedKeys| && OkBefore(Subject(env, q).value, SeenKeys(env, q), Position(f))
      && Name(f) in SeenKeys(env, q) && !HasFieldType(f, Get(Subject(env, q).value, Name(f)))
  {
    ValidateStages(env, q);
    if Examined(env, q) && |SeenKeys(env, q)| <= |ExpectedKeys| {
      ExpectedFieldErrors(Subject(env, q).value, SeenKeys(env, q), f);
    }
  }

  /** Past the key count, validate fails as the field loop fails or, once
      the loop passes, as one of the two rules; before it, with none of the
      field errors */
  lemma ValidateStages(env: Env, q: Value)
    ensures !(Examined(env, q) && |SeenKeys(env, q)| <= |ExpectedKeys|) ==>
      Validate(env, q).Fail? && !Validate(env, q).error.MissingField? && !Validate(env, q).error.WrongFieldType?
    ensures Examined(env, q) && |SeenKeys(env, q)| <= |ExpectedKeys| ==>
      var c := CheckFields(Subject(env, q).value, SeenKeys(env, q), ExpectedKeys);
      && (c.Fail? ==> Validate(env, q) == c)
      && (c.Pass? ==> Validate(env, q) in {Pass, Fail(PrivateWithType), Fail(InvalidFeedId)})
  {
  }

  /** The two rules after the field loop: private with a truthy type, then
      the feed id */
  lemma ValidateRuleErrors(env: Env, q: Value)
    ensures Validate(env, q) == Fail(PrivateWithType) <==>
      Examined(env, q) && |SeenKeys(env, q)| <= |ExpectedKeys| && OkBefore(Subject(env, q).value, SeenKeys(env, q), |ExpectedKeys|)
      && Truthy(Get(Subject(env, q).value, "private")) && Truthy(Get(Subject(env, q).value, "type"))
    ensures Validate(env, q) == Fail(InvalidFeedId) <==>
      Examined(env, q) && |SeenKeys(env, q)| <= |ExpectedKeys| && OkBefore(Subject(env, q).value, SeenKeys(env, q), |ExpectedKeys|)
      && !(Truthy(Get(Subject(env, q).value, "private")) && Truthy(Get(Subject(env, q).value, "type")))
      && !IsFeedIdValue(env, Get(Subject(env, q).value, "author"))
  {
    if Examined(env, q) && |SeenKeys(env, q)| <= |ExpectedKeys| {
      CheckFieldsPass(Subject(env, q).value, SeenKeys(env, q), ExpectedKeys);
    }
  }

  /** validate got as far as the key count: the query is a truthy string or
      object, decodes, and is not null */
  predicate Examined(env: Env, q: Value) {
    Truthy(q) && (q.Str? || IsObjectKind(q)) && Subject(env, q).Some? && ObjectKeys(Subject(env, q).value).Some?
  }

  function SeenKeys(env: Env, q: Value): seq<string>
    requires Examined(env, q)
  {
    ObjectKeys(Subject(env, q).value).value
  }


  // ---------------------------------------------------------------------
  // parse

  /** `parse(query)`: never throws. A falsy query gives null silently; a
      string that does not decode or whose decoding does not validate, an
      object that does not validate, and any other value give null and one
      warning; otherwise the decoded or given value comes back unchanged. */
  function Parse(env: Env, q: Value): (r: Parsed)
    ensures r.warnings == (if !Truthy(q) || r.result != Null then 0 else 1)
    ensures r.result != Null ==> Some(r.result) == Subject(env, q) && Validate(env, r.result).Pass?
    ensures !q.Str? ==> (r.result != Null <==> Validate(env, q).Pass?)
  {
    if !Truthy(q) then Parsed(Null, 0)
    else if q.Str? then
      match env.decode(q.s)
      case None => Parsed(Null, 1)
      case Some(parsed) => if Validate(env, parsed).Pass? then Parsed(parsed, 0) else Parsed(Null, 1)
    else if IsObjectKind(q) then
      if Validate(env, q).Pass? then Parsed(q, 0) else Parsed(Null, 1)
    else Parsed(Null, 1)
  }

  /** A query that validates parses, without a warning, to the object
      validate examined */
  lemma ParseValid(env: Env, q: Value)
    requires Validate(env, q).Pass?
    ensures ValidQuery(env, q)
    ensures Parse(env, q) == Parsed(Subject(env, q).value, 0)
  {
    ValidateAccepts(env, q);
    ValidateAccepts(env, Subject(env, q).value);
  }

  /** The text of a query's text: parse decodes it once and hands the inner
      string to validate, which decodes it again and accepts; validate on
      the outer string decodes once and counts the inner string's
      characters as keys, too many of them. */
  lemma ParseAcceptsDoubleEncoded(env: Env, s: string, t: string)
    requires env.decode(s) == Some(Str(t)) && Validate(env, Str(t)).Pass?
    ensures Parse(env, Str(s)) == Parsed(Str(t), 0)
    ensures Validate(env, Str(s)) == Fail(TooManyFields)
  {
    ValidateAccepts(env, Str(t));
    var obj := env.decode(t).value;
    KeySmaller(obj.fields, "author");
    assert |t| >= Size(obj) > 3;
  }

  /** What parse can return: null, a well-shaped object, or (only for a
      doubly encoded string) a string */
  lemma ParseResultKinds(env: Env, q: Value)
    ensures var p := Parse(env, q).result;
      p.Null? || p.Str? || (WellShaped(p) && ValidQuery(env, q) && Some(p) == Subject(env, q))
    ensures Parse(env, q).result.Str? ==> DoubleEncoded(env, q)
  {
    var p := Parse(env, q).result;
    if p != Null {
      ValidateAccepts(env, p);
      if !p.Str? {
        ValidateAccepts(env, q);
      }
    }
  }

  /** A string whose decoding is itself a string */
  predicate DoubleEncoded(env: Env, q: Value) {
    q.Str? && env.decode(q.s).Some? && env.decode(q.s).value.Str?
  }

  /** Apart from doubly encoded strings, parse succeeds exactly on valid queries */
  lemma ParseAgreesWithValidate(env: Env, q: Value)
    requires !DoubleEncoded(env, q)
    ensures Parse(env, q).result != Null <==> Validate(env, q).Pass?
  {
    ParseResultKinds(env, q);
    if Validate(env, q).Pass? {
      ParseValid(env, q);
    } else if Parse(env, q).result != Null {
      ValidateAccepts(env, q);
    }
  }

  // ---------------------------------------------------------------------
  // toOperator

  /** `toOperator(query, dedicated = false)`: validates, parses, and builds
      `and(author, isPrivate)` for a private query and `and(author, type,
      isPublic)` otherwise, every leaf given the same `dedicated` */
  function ToOperator(env: Env, q: Value, dedicated: bool := false): (r: Result<Op>)
    ensures Validate(env, q).Fail? ==> r == Err(Validate(env, q).error)
    ensures Validate(env, q).Pass? ==>
      ValidQuery(env, q) && r == Ok(Expected(RecordOf(Subject(env, q).value), dedicated))
    ensures r.Ok? ==> LeavesCarry(r.value, dedicated)
  {
    match Validate(env, q)
    case Fail(e) => Err(e)
    case Pass =>
      ParseValid(env, q);
      var actual := Parse(env, q).result;
      assert WellShaped(actual);
      if Truthy(Get(actual, "private")) then
        Ok(And([Author(Get(actual, "author").s, dedicated), IsPrivate]))
      else
        Ok(And([Author(Get(actual, "author").s, dedicated), Type(TypeArg(Get(actual, "type")), dedicated), IsPublic]))
  }

  /** The tree toOperator builds for a valid record */
  function Expected(rec: Query, d: bool): (op: Op)
    ensures LeavesCarry(op, d)
  {
    if rec.isPrivate then And([Author(rec.author, d), IsPrivate])
    else And([Author(rec.author, d), Type(rec.msgType, d), IsPublic])
  }

  /** The operator tree gives back the query's author and privacy and, for a
      public query, its type: a private query's type, which may be "" as
      well as null, is not compiled */
  lemma ToOperatorDeterminesQuery(env: Env, q1: Value, q2: Value, d: bool)
    requires ToOperator(env, q1, d).Ok? && ToOperator(env, q1, d) == ToOperator(env, q2, d)
    ensures ValidQuery(env, q1) && ValidQuery(env, q2)
    ensures var r1, r2 := RecordOf(Subject(env, q1).value), RecordOf(Subject(env, q2).value);
      r1.author == r2.author && r1.isPrivate == r2.isPrivate && (!r1.isPrivate ==> r1.msgType == r2.msgType)
  {
  }

  // ---------------------------------------------------------------------
  // stringify

  /** `stringify(query)`: validates, then writes author, type and private in
      that order. It reads the three fields from the query as given (so
      from a string query it reads undefined) and writes them with
      JavaScript's string conversion, without JSON escaping. */
  function Stringify(env: Env, q: Value): (r: Result<string>)
    ensures r.Ok? <==> Validate(env, q).Pass?
    ensures r.Err? ==> r.error == Validate(env, q).error
  {
    match Validate(env, q)
    case Fail(e) => Err(e)
    case Pass =>
      TemplateArgs(env, q);
      Ok(Template(Get(q, "author"), Get(q, "type"), Get(q, "private")))
  }

  /** A valid query is an object whose three fields are a string, a string
      or null, and a boolean, or a string, whose fields read as undefined */
  lemma TemplateArgs(env: Env, q: Value)
    requires Validate(env, q).Pass?
    ensures q.Obj? || q.Str?
    ensures Printable(Get(q, "author")) && Printable(Get(q, "type")) && Printable(Get(q, "private"))
  {
    ValidateAccepts(env, q);
    if !q.Str? {
      assert Subject(env, q) == Some(q);
    }
  }

  /** The template stringify fills in: author and a non-null type between
      quotes, a null type as the word null, private bare */
  function Template(author: Value, msgType: Value, priv: Value): (r: string)
    requires Printable(author) && Printable(msgType) && Printable(priv)
    ensures |r| >= 12 + |ToJsString(author)| + |ToJsString(priv)|
    ensures r[..11 + |ToJsString(author)|] == "{\"author\":\"" + ToJsString(author)
    ensures r[|r| - |ToJsString(priv)| - 1..] == ToJsString(priv) + "}"
  {
    if msgType == Null then
      "{\"author\":\"" + ToJsString(author) + "\",\"type\":null,\"private\":" + ToJsString(priv) + "}"
    else
      "{\"author\":\"" + ToJsString(author) + "\",\"type\":\"" + ToJsString(msgType)
      + "\",\"private\":" + ToJsString(priv) + "}"
  }

  // ---------------------------------------------------------------------
  // isEquals

  /** `isEquals(q1, q2)`: deep equality of the two parse results, so two
      queries that both fail to parse are equal (both null) */
  function IsEquals(env: Env, q1: Value, q2: Value): (r: bool)
    ensures Parse(env, q1).result == Null && Parse(env, q2).result == Null ==> r
    ensures (Parse(env, q1).result == Null) != (Parse(env, q2).result == Null) ==> !r
  {
    DeepEqual(Parse(env, q1).result, Parse(env, q2).result)
  }

  /** The three expected fields read the same in both objects */
  predicate SameLookups(a: Value, b: Value)
    requires a.Obj? && b.Obj?
  {
    && Lookup(a.fields, "author") == Lookup(b.fields, "author")
    && Lookup(a.fields, "type") == Lookup(b.fields, "type")
    && Lookup(a.fields, "private") == Lookup(b.fields, "private")
  }

  /** Each property of a well-shaped object is one of the three fields,
      holds a scalar, and is what a lookup of its key finds */
  lemma ShapedProperties(a: Value)
    requires WellShaped(a)
    ensures |a.fields| == 3
    ensures forall i :: 0 <= i < 3 ==>
      && a.fields[i].0 in ["author", "type", "private"]
      && a.fields[i].1 == Lookup(a.fields, a.fields[i].0)
      && !a.fields[i].1.Arr? && !a.fields[i].1.Obj?
  {
    WellShapedKeys(a);
    forall i | 0 <= i < 3
      ensures a.fields[i].1 == Lookup(a.fields, a.fields[i].0)
    {
      LookupAt(a.fields, i);
    }
  }

  /** Deep equality of two well-shaped objects compares the three fields */
  lemma ShapedDeepEqual(a: Value, b: Value)
    requires WellShaped(a) && WellShaped(b)
    ensures DeepEqual(a, b) <==> SameLookups(a, b)
  {
    ShapedProperties(a);
    ShapedProperties(b);
    FieldsEqualMeans(a.fields, b.fields);
    if DeepEqual(a, b) {
      forall k | k in ["author", "type", "private"]
        ensures Lookup(a.fields, k) == Lookup(b.fields, k)
      {
        var i :| 0 <= i < 3 && KeysOf(a.fields)[i] == k;
        assert DeepEqual(a.fields[i].1, Lookup(b.fields, k));
      }
    }
  }

  /** isEquals compares the three fields and nothing else: on two
      well-shaped objects deep equality is equality of their records */
  lemma ShapedEqual(a: Value, b: Value)
    requires WellShaped(a) && WellShaped(b)
    ensures DeepEqual(a, b) <==> RecordOf(a) == RecordOf(b)
  {
    ShapedDeepEqual(a, b);
  }

  lemma CanonicalLookups(rec: Query)
    ensures KeysOf(Canonical(rec)) == ["author", "type", "private"]
    ensures Lookup(Canonical(rec), "author") == Str(rec.author)
    ensures Lookup(Canonical(rec), "type") == (if rec.msgType.Some? then Str(rec.msgType.value) else Null)
    ensures Lookup(Canonical(rec), "private") == Bool(rec.isPrivate)
  {
    var c := Canonical(rec);
    assert c[1..][1..] == [c[2]];
    assert "author" != "type" && "author" != "private" && "type" != "private";
    assert KeysOf(c[1..][1..]) == ["private"];
    assert Lookup(c[1..][1..], "private") == Bool(rec.isPrivate);
    assert Lookup(c[1..], "private") == Bool(rec.isPrivate);
  }

  /** A record's canonical properties form a flat, well-shaped object that
      gives the record back */
  lemma CanonicalRecord(rec: Query)
    ensures WellShaped(Obj(Canonical(rec))) && RecordOf(Obj(Canonical(rec))) == rec
    ensures Flat(Canonical(rec)) && DistinctKeys(Canonical(rec))
  {
    CanonicalLookups(rec);
  }

  /** The record of a valid query, without the order of the checks: private
      queries have a null or empty type, and the author is a feed id */
  predicate ValidRecordOf(env: Env, rec: Query) {
    !(rec.isPrivate && rec.msgType.Some? && rec.msgType.value != "") && env.isFeedId(rec.author)
  }

  lemma ValidByRecord(env: Env, obj: Value)
    requires WellShaped(obj)
    ensures ValidRecord(env, obj) <==> ValidRecordOf(env, RecordOf(obj))
  {
  }

  /** isEquals is reflexive, whatever the query, since parse is deterministic */
  lemma IsEqualsReflexive(env: Env, q: Value)
    ensures IsEquals(env, q, q)
  {
    ParseResultKinds(env, q);
    var p := Parse(env, q).result;
    if WellShaped(p) {
      ShapedEqual(p, p);
    }
  }

  lemma IsEqualsSymmetric(env: Env, q1: Value, q2: Value)
    ensures IsEquals(env, q1, q2) == IsEquals(env, q2, q1)
  {
    ParseResultKinds(env, q1);
    ParseResultKinds(env, q2);
    var p1, p2 := Parse(env, q1).result, Parse(env, q2).result;
    if WellShaped(p1) && WellShaped(p2) {
      ShapedEqual(p1, p2);
      ShapedEqual(p2, p1);
    }
  }

  /** Two queries, each given as a string or an object, are equal exactly
      when both are invalid (both parse to null) or both are valid with the
      same three field values, in whatever order their keys came */
  lemma IsEqualsMeans(env: Env, q1: Value, q2: Value)
    requires !DoubleEncoded(env, q1) && !DoubleEncoded(env, q2)
    ensures IsEquals(env, q1, q2) <==>
      || (!ValidQuery(env, q1) && !ValidQuery(env, q2))
      || (ValidQuery(env, q1) && ValidQuery(env, q2)
          && RecordOf(Subject(env, q1).value) == RecordOf(Subject(env, q2).value))
  {
    ParseAgreesWithValidate(env, q1);
    ParseAgreesWithValidate(env, q2);
    ValidateAccepts(env, q1);
    ValidateAccepts(env, q2);
    ParseResultKinds(env, q1);
    ParseResultKinds(env, q2);
    if ValidQuery(env, q1) && ValidQuery(env, q2) {
      ParseValid(env, q1);
      ParseValid(env, q2);
      ShapedEqual(Subject(env, q1).value, Subject(env, q2).value);
    }
  }

  /** Queries isEquals calls equal compile to the same operator tree */
  lemma EqualQueriesCompileAlike(env: Env, q1: Value, q2: Value, d: bool)
    requires ValidQuery(env, q1) && IsEquals(env, q1, q2)
    ensures ToOperator(env, q1, d) == ToOperator(env, q2, d)
  {
    ValidateAccepts(env, q1);
    ParseValid(env, q1);
    ParseResultKinds(env, q2);
    var p1, p2 := Parse(env, q1).result, Parse(env, q2).result;
    assert p2.Obj?;
    ShapedEqual(p1, p2);
    ValidateAccepts(env, q2);
  }

  // ---------------------------------------------------------------------
  // Key order

  /** Both objects have key `k` or neither, with the same value */
  predicate Agrees(fs: seq<(string, Value)>, gs: seq<(string, Value)>, k: string) {
    (HasKey(fs, k) <==> HasKey(gs, k)) && Lookup(fs, k) == Lookup(gs, k)
  }

  /** The same number of keys and the same three expected fields: all that
      validate, stringify and toOperator read of an object */
  predicate SameFields(fs: seq<(string, Value)>, gs: seq<(string, Value)>) {
    |fs| == |gs| && Agrees(fs, gs, "author") && Agrees(fs, gs, "type") && Agrees(fs, gs, "private")
  }

  lemma {:induction false} CheckFieldsCongruent(o1: Value, k1: seq<string>, o2: Value, k2: seq<string>, fields: seq<Field>)
    requires forall i :: 0 <= i < |fields| ==>
      (Name(fields[i]) in k1 <==> Name(fields[i]) in k2) && Get(o1, Name(fields[i])) == Get(o2, Name(fields[i]))
    ensures CheckFields(o1, k1, fields) == CheckFields(o2, k2, fields)
    decreases fields
  {
    if fields != [] {
      assert forall i :: 1 <= i < |fields| ==> fields[i] == fields[1..][i - 1];
      CheckFieldsCongruent(o1, k1, o2, k2, fields[1..]);
    }
  }

  lemma SameFieldsCheck(fs: seq<(string, Value)>, gs: seq<(string, Value)>)
    requires SameFields(fs, gs)
    ensures CheckFields(Obj(fs), KeysOf(fs), ExpectedKeys) == CheckFields(Obj(gs), KeysOf(gs), ExpectedKeys)
  {
    forall i | 0 <= i < |ExpectedKeys|
      ensures Agrees(fs, gs, Name(ExpectedKeys[i]))
    {
      assert ExpectedKeys[i] == AuthorField || ExpectedKeys[i] == TypeField || ExpectedKeys[i] == PrivateField;
    }
    CheckFieldsCongruent(Obj(fs), KeysOf(fs), Obj(gs), KeysOf(gs), ExpectedKeys);
  }

  /** validate reads of an object only its key count and the three fields */
  lemma SameFieldsValidate(env: Env, fs: seq<(string, Value)>, gs: seq<(string, Value)>)
    requires SameFields(fs, gs)
    ensures Validate(env, Obj(fs)) == Validate(env, Obj(gs))
  {
    SameFieldsCheck(fs, gs);
    ValidateObject(env, fs);
    ValidateObject(env, gs);
  }

  /** On an object, validate starts at the key count */
  lemma ValidateObject(env: Env, fs: seq<(string, Value)>)
    ensures var c := CheckFields(Obj(fs), KeysOf(fs), ExpectedKeys);
      Validate(env, Obj(fs)) ==
        if |fs| > |ExpectedKeys| then Fail(TooManyFields)
        else if c.Fail? then c
        else if Truthy(Lookup(fs, "private")) && Truthy(Lookup(fs, "type")) then Fail(PrivateWithType)
        else if !IsFeedIdValue(env, Lookup(fs, "author")) then Fail(InvalidFeedId)
        else Pass
  {
    var obj := Obj(fs);
    assert Truthy(obj) && IsObjectKind(obj);
    assert Subject(env, obj) == Some(obj);
    assert ObjectKeys(obj) == Some(KeysOf(fs));
    assert Get(obj, "private") == Lookup(fs, "private");
    assert Get(obj, "type") == Lookup(fs, "type");
    assert Get(obj, "author") == Lookup(fs, "author");
  }

  /** Key insertion order does not matter: two objects with the same
      properties in any order validate alike, stringify to the same text,
      compile to the same tree and, when valid, are equal */
  lemma KeyOrderIrrelevant(env: Env, fs: seq<(string, Value)>, gs: seq<(string, Value)>, d: bool)
    requires DistinctKeys(fs) && DistinctKeys(gs) && multiset(fs) == multiset(gs)
    ensures Validate(env, Obj(fs)) == Validate(env, Obj(gs))
    ensures Stringify(env, Obj(fs)) == Stringify(env, Obj(gs))
    ensures ToOperator(env, Obj(fs), d) == ToOperator(env, Obj(gs), d)
    ensures Validate(env, Obj(fs)).Pass? ==> IsEquals(env, Obj(fs), Obj(gs))
  {
    PermutedLookup(fs, gs, "author");
    PermutedLookup(fs, gs, "type");
    PermutedLookup(fs, gs, "private");
    assert |fs| == |multiset(fs)| == |gs|;
    SameFieldsValidate(env, fs, gs);
    if Validate(env, Obj(fs)).Pass? {
      ParseValid(env, Obj(fs));
      ParseValid(env, Obj(gs));
      ShapedEqual(Obj(fs), Obj(gs));
    }
  }

  // ---------------------------------------------------------------------
  // Canonical text

  /** The author and a string type need no JSON escaping */
  predicate PlainText(obj: Value) {
    && (Get(obj, "author").Str? ==> NeedsNoEscape(Get(obj, "author").s))
    && (Get(obj, "type").Str? ==> NeedsNoEscape(Get(obj, "type").s))
  }

  /** The canonical text of a record, member by member */
  lemma CanonicalMembers(rec: Query)
    ensures FlatText(Canonical(rec)) ==
      "{" + (Quote("author") + ":" + Quote(rec.author) + "," + (Quote("type") + ":" + ScalarText(Canonical(rec)[1].1) + ","
      + (Quote("private") + ":" + ToJsString(Bool(rec.isPrivate))))) + "}"
  {
    var c := Canonical(rec);
    MembersCons(c);
    MembersCons(c[1..]);
    assert c[1..][1..] == c[2..];
    MembersOne(c[2..]);
  }

  // QuoteAuthorKey, QuoteTypeKey, QuotePrivateKey and Glue carry no property of
  // the source. They cut the joining of literal strings in CanonicalText into
  // small steps, because the solver is slow to join long literals in one go.

  lemma QuoteAuthorKey() ensures Quote("author") == "\"author\"" {
    var k := "author";
    assert NeedsNoEscape(k);
    EscapeAllPlain(k);
    assert "\"" + k + "\"" == "\"author\"";
  }

  lemma QuoteTypeKey() ensures Quote("type") == "\"type\"" {
    var k := "type";
    assert NeedsNoEscape(k);
    EscapeAllPlain(k);
    assert "\"" + k + "\"" == "\"type\"";
  }

  lemma QuotePrivateKey() ensures Quote("private") == "\"private\"" {
    var k := "private";
    assert NeedsNoEscape(k);
    EscapeAllPlain(k);
    assert "\"" + k + "\"" == "\"private\"";
  }

  lemma Glue(qa: string, qt: string, qp: string, a: string, t: string, p: string)
    requires qa == "\"author\"" && qt == "\"type\"" && qp == "\"private\""
    ensures "{" + (qa + ":" + a + "," + (qt + ":" + t + "," + (qp + ":" + p))) + "}"
      == "{\"author\":" + a + ",\"type\":" + t + ",\"private\":" + p + "}"
  {
  }

  /** The canonical text of a record with its keys spelled out */
  lemma CanonicalText(rec: Query)
    ensures FlatText(Canonical(rec)) ==
      "{\"author\":" + Quote(rec.author) + ",\"type\":" + ScalarText(Canonical(rec)[1].1)
      + ",\"private\":" + ToJsString(Bool(rec.isPrivate)) + "}"
  {
    CanonicalMembers(rec);
    QuoteAuthorKey();
    QuoteTypeKey();
    QuotePrivateKey();
    Glue(Quote("author"), Quote("type"), Quote("private"),
      Quote(rec.author), ScalarText(Canonical(rec)[1].1), ToJsString(Bool(rec.isPrivate)));
  }

  // PublicText and NullText are steps of the same kind for TemplateIsJson. They
  // regroup the template's pieces around each quoted value.

  lemma PublicText(a: string, t: string, p: string)
    ensures "{\"author\":\"" + a + "\",\"type\":\"" + t + "\",\"private\":" + p + "}"
      == "{\"author\":" + ("\"" + a + "\"") + ",\"type\":" + ("\"" + t + "\"") + ",\"private\":" + p + "}"
  {
  }

  lemma NullText(a: string, p: string)
    ensures "{\"author\":\"" + a + "\",\"type\":null,\"private\":" + p + "}"
      == "{\"author\":" + ("\"" + a + "\"") + ",\"type\":" + "null" + ",\"private\":" + p + "}"
  {
  }

  /** For an object query whose author and type need no escaping, stringify
      writes the JSON text of its three fields in the order author, type,
      private, whatever order the object has them in */
  lemma StringifyIsJson(env: Env, q: Value)
    requires Validate(env, q).Pass? && q.Obj? && PlainText(q)
    ensures ValidQuery(env, q)
    ensures Stringify(env, q) == Ok(FlatText(Canonical(RecordOf(q))))
  {
    ValidateAccepts(env, q);
    var rec := RecordOf(q);
    CanonicalText(rec);
    TemplateIsJson(rec.author, Get(q, "type"), rec.isPrivate);
  }

  /** The template on a string author, a string or null type and a boolean
      is the canonical text, when nothing needs escaping */
  lemma TemplateIsJson(a: string, t: Value, p: bool)
    requires NeedsNoEscape(a) && (t.Str? || t.Null?) && (t.Str? ==> NeedsNoEscape(t.s))
    ensures Template(Str(a), t, Bool(p)) == FlatText(Canonical(Query(a, TypeArg(t), p)))
  {
    var rec := Query(a, TypeArg(t), p);
    CanonicalText(rec);
    QuotePlain(a);
    if t.Str? {
      QuotePlain(t.s);
      PublicText(a, t.s, ToJsString(Bool(p)));
    } else {
      NullText(a, ToJsString(Bool(p)));
    }
  }

  /** What stringify writes decodes back to an equal query */
  lemma StringifyRoundTrip(env: Env, q: Value)
    requires Validate(env, q).Pass? && q.Obj? && PlainText(q)
    requires DecodesFlatObjects(env.decode)
    ensures ValidQuery(env, q)
    ensures Parse(env, Str(Stringify(env, q).value)) == Parsed(Obj(Canonical(RecordOf(q))), 0)
    ensures IsEquals(env, Str(Stringify(env, q).value), q)
  {
    StringifyIsJson(env, q);
    StringifyCanonicalRoundTrip(env, q);
  }

  /** stringify as its comment intends: validate, then the JSON text, with
      escapes, of the parsed query's fields in the order author, type,
      private; for a string query that means the fields of its decoding */
  function StringifyCanonical(env: Env, q: Value): (r: Result<string>)
    ensures Validate(env, q).Fail? ==> r == Err(Validate(env, q).error)
    ensures Validate(env, q).Pass? ==>
      ValidQuery(env, q) && r == Ok(FlatText(Canonical(RecordOf(Subject(env, q).value))))
  {
    match Validate(env, q)
    case Fail(e) => Err(e)
    case Pass =>
      ParseValid(env, q);
      Ok(FlatText(Canonical(RecordOf(Parse(env, q).result))))
  }

  /** The canonical text of every valid query, string or object, whatever
      its characters, parses back silently to an equal query */
  lemma StringifyCanonicalRoundTrip(env: Env, q: Value)
    requires Validate(env, q).Pass? && DecodesFlatObjects(env.decode)
    ensures ValidQuery(env, q)
    ensures Parse(env, Str(StringifyCanonical(env, q).value)) == Parsed(Obj(Canonical(RecordOf(Subject(env, q).value))), 0)
    ensures IsEquals(env, Str(StringifyCanonical(env, q).value), q)
  {
    ParseValid(env, q);
    var obj := Subject(env, q).value;
    var rec := RecordOf(obj);
    CanonicalRecord(rec);
    var canon := Obj(Canonical(rec));
    ValidByRecord(env, obj);
    ValidByRecord(env, canon);
    ValidateAccepts(env, canon);
    ShapedEqual(canon, obj);
  }

  /** On object queries with nothing to escape the corrected stringify and
      the original agree */
  lemma StringifyCanonicalAgrees(env: Env, q: Value)
    requires Validate(env, q).Pass? && q.Obj? && PlainText(q)
    ensures StringifyCanonical(env, q) == Stringify(env, q)
  {
    StringifyIsJson(env, q);
  }

  /** As written, stringify reads the fields from the query as given, so
      every valid string query, whatever it asks for, gives the same text,
      made of "undefined" */
  lemma StringifyOfStringQuery(env: Env, s1: string, s2: string)
    requires Validate(env, Str(s1)).Pass? && Validate(env, Str(s2)).Pass?
    ensures Stringify(env, Str(s1)) == Ok("{\"author\":\"undefined\",\"type\":\"undefined\",\"private\":undefined}")
    ensures Stringify(env, Str(s1)) == Stringify(env, Str(s2))
  {
    TemplateOfUndefined();
    assert Get(Str(s1), "author") == Undefined && Get(Str(s1), "type") == Undefined && Get(Str(s1), "private") == Undefined;
    assert Get(Str(s2), "author") == Undefined && Get(Str(s2), "type") == Undefined && Get(Str(s2), "private") == Undefined;
  }

  lemma TemplateOfUndefined()
    ensures Template(Undefined, Undefined, Undefined) == "{\"author\":\"undefined\",\"type\":\"undefined\",\"private\":undefined}"
  {
    // Solver steps only: each assert joins one more piece of the template, left
    // to right, since the solver does not join the whole literal in one go.
    assert "{\"author\":\"" + "undefined" == "{\"author\":\"undefined";
    assert "{\"author\":\"undefined" + "\",\"type\":\"" == "{\"author\":\"undefined\",\"type\":\"";
    assert "{\"author\":\"undefined\",\"type\":\"" + "undefined" == "{\"author\":\"undefined\",\"type\":\"undefined";
    assert "{\"author\":\"undefined\",\"type\":\"undefined" + "\",\"private\":"
      == "{\"author\":\"undefined\",\"type\":\"undefined\",\"private\":";
    assert "{\"author\":\"undefined\",\"type\":\"undefined\",\"private\":" + "undefined"
      == "{\"author\":\"undefined\",\"type\":\"undefined\",\"private\":undefined";
  }

  /** The template's length: 34 characters besides the three values */
  lemma TemplateLength(a: string, t: string, p: Value)
    requires Printable(p)
    ensures |Template(Str(a), Str(t), p)| == 34 + |a| + |t| + |ToJsString(p)|
  {
  }

  /** The canonical text's length: 34 characters besides the escaped author,
      the escaped type and the private flag */
  lemma CanonicalLength(a: string, t: string, p: bool)
    ensures |FlatText(Canonical(Query(a, Some(t), p)))| == 34 + |EscapeAll(a)| + |EscapeAll(t)| + |ToJsString(Bool(p))|
  {
    CanonicalText(Query(a, Some(t), p));
  }

  /** As written, stringify does not escape: a type with a quote, a
      backslash or a control character is written raw, and the text differs
      from the JSON encoding of the query */
  lemma StringifyUnescaped(env: Env, q: Value)
    requires Validate(env, q).Pass? && q.Obj?
    requires Get(q, "type").Str? && !NeedsNoEscape(Get(q, "type").s)
    ensures ValidQuery(env, q)
    ensures Stringify(env, q).value != FlatText(Canonical(RecordOf(q)))
  {
    ValidateAccepts(env, q);
    var rec := RecordOf(q);
    EscapeAllLength(rec.author);
    EscapeAllLength(rec.msgType.value);
    TemplateLength(rec.author, rec.msgType.value, Bool(rec.isPrivate));
    CanonicalLength(rec.author, rec.msgType.value, rec.isPrivate);
  }

  // ---------------------------------------------------------------------
  // Scenarios

  /** A record laid out in canonical order fails validation only on the
      private/type rule or the feed id, in that order */
  lemma ValidateCanonical(env: Env, rec: Query)
    ensures Validate(env, Obj(Canonical(rec))) ==
      if rec.isPrivate && rec.msgType.Some? && rec.msgType.value != "" then Fail(PrivateWithType)
      else if !env.isFeedId(rec.author) then Fail(InvalidFeedId)
      else Pass
  {
    var obj := Obj(Canonical(rec));
    CanonicalLookups(rec);
    CanonicalRecord(rec);
    ShapeChecks(obj);
    RulesOnShape(env, obj);
    ValidateObject(env, Canonical(rec));
  }

  /** A public query compiled with dedicated leaves */
  lemma CompilePublicScenario(env: Env)
    requires env.isFeedId("@ABC=.ed25519")
    ensures ToOperator(env, Obj(Canonical(Query("@ABC=.ed25519", Some("vote"), false))), true)
      == Ok(And([Author("@ABC=.ed25519", true), Type(Some("vote"), true), IsPublic]))
  {
    ValidateCanonical(env, Query("@ABC=.ed25519", Some("vote"), false));
    CanonicalRecord(Query("@ABC=.ed25519", Some("vote"), false));
  }

  /** A private query with a null type, compiled with the default flag */
  lemma CompilePrivateScenario(env: Env)
    requires env.isFeedId("@ABC=.ed25519")
    ensures ToOperator(env, Obj(Canonical(Query("@ABC=.ed25519", None, true))))
      == Ok(And([Author("@ABC=.ed25519", false), IsPrivate]))
  {
    ValidateCanonical(env, Query("@ABC=.ed25519", None, true));
    CanonicalRecord(Query("@ABC=.ed25519", None, true));
  }

  /** The private/type rule tests truthiness: a private query with an empty
      type passes and compiles as private, one with a non-empty type fails */
  lemma PrivateTypeRule(env: Env, author: string, t: string)
    requires env.isFeedId(author)
    ensures Validate(env, Obj(Canonical(Query(author, Some(""), true)))) == Pass
    ensures ToOperator(env, Obj(Canonical(Query(author, Some(""), true)))) == Ok(And([Author(author, false), IsPrivate]))
    ensures t != "" ==> Validate(env, Obj(Canonical(Query(author, Some(t), true)))) == Fail(PrivateWithType)
  {
    ValidateCanonical(env, Query(author, Some(""), true));
    ValidateCanonical(env, Query(author, Some(t), true));
    CanonicalRecord(Query(author, Some(""), true));
  }
}
