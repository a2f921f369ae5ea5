/** QL1: a boolean tree of `and`/`or` nodes over `type` and `author`
    leaves, given as an object or as its JSON text, where any node's
    arguments may again be JSON texts. Its recursive validator, best-effort
    parser, compiler to an operator tree, serialiser and (unsupported)
    equality test. */
module Ql1 {
  import opened Json
  import opened Runtime
  import opened Operators
  import opened JsonText

  /** The tree a valid QL1 query describes */
  datatype Query =
    | AndNode(args: seq<Query>)
    | OrNode(args: seq<Query>)
    | TypeLeaf(msgType: string)
    | AuthorLeaf(feed: string)

  // ---------------------------------------------------------------------
  // validate

  /** `validate(query)`: Pass when it returns, the first rule it breaks
      when it throws */
  function Validate(env: Env, q: Value): (r: Outcome)
    ensures r.Pass? ==> Truthy(q) && Subject(env, q).Some? && Subject(env, q).value.Obj?
    decreases Size(q), 1, 0
  {
    if !Truthy(q) then Fail(NotTruthy)
    else if !q.Str? && !IsObjectKind(q) then Fail(NotStringOrObject)
    else match Subject(env, q)
      case None => Fail(DecodeFailed)
      case Some(obj) =>
        SubjectSmaller(env, q);
        ValidateNode(env, obj)
  }

  /** One node: its `op` decides which rule applies. Reading `op` of null
      (or undefined) throws; a falsy `op` is missing; anything but the four
      operator names is unknown. */
  function ValidateNode(env: Env, obj: Value): (r: Outcome)
    ensures r.Pass? ==> obj.Obj?
    decreases Size(obj), 0, 0
  {
    if obj.Null? || obj.Undefined? then Fail(NullHasNoProperties)
    else
      var op := Get(obj, "op");
      if !Truthy(op) then Fail(MissingOp)
      else if op == Str("and") || op == Str("or") then
        var args := Get(obj, "args");
        if !args.Arr? then Fail(ArgsNotArray)
        else
          LookupSmaller(obj.fields, "args");
          ValidateArgs(env, args.items)
      else if op == Str("type") then
        if Get(obj, "string").Str? then Pass else Fail(TypeWithoutString)
      else if op == Str("author") then
        if Get(obj, "feed").Str? then Pass else Fail(AuthorWithoutFeed)
      else Fail(UnknownOp(op))
  }

  /** The `for-of` loop over `args`: each argument in order, stopping at
      the first that throws */
  function ValidateArgs(env: Env, items: seq<Value>): (r: Outcome)
    ensures r.Pass? ==> forall i :: 0 <= i < |items| ==>
      Truthy(items[i]) && Subject(env, items[i]).Some? && Subject(env, items[i]).value.Obj?
    ensures r.Fail? ==> items != []
    decreases ItemsSize(items), 2, |items|
  {
    if items == [] then Pass
    else
      ItemSmaller(items, 0);
      match Validate(env, items[0])
      case Fail(e) => Fail(e)
      case Pass => ValidateArgs(env, items[1..])
  }

  /** An object is validated as a node */
  lemma ValidateObject(env: Env, obj: Value)
    requires obj.Obj?
    ensures Validate(env, obj) == ValidateNode(env, obj)
  {
    assert Truthy(obj) && Subject(env, obj) == Some(obj);
  }

  /** The loop passes exactly when every argument validates */
  lemma {:induction false} ValidateArgsPass(env: Env, items: seq<Value>)
    ensures ValidateArgs(env, items).Pass? <==> forall i :: 0 <= i < |items| ==> Validate(env, items[i]).Pass?
    decreases items
  {
    if items != [] {
      ValidateArgsPass(env, items[1..]);
      assert forall i :: 1 <= i < |items| ==> items[i] == items[1..][i - 1];
    }
  }

  /** Fail-fast: when the arguments before position `i` validate and the
      one at `i` does not, its error is the loop's */
  lemma {:induction false} ValidateArgsFirstError(env: Env, items: seq<Value>, i: nat)
    requires i < |items| && Validate(env, items[i]).Fail?
    requires forall j :: 0 <= j < i ==> Validate(env, items[j]).Pass?
    ensures ValidateArgs(env, items) == Validate(env, items[i])
    decreases i
  {
    if i > 0 {
      assert Validate(env, items[0]).Pass?;
      ValidateArgsFirstError(env, items[1..], i - 1);
    }
  }

  /** An `and` or `or` node with an `args` array: its verdict is its
      arguments' */
  predicate Delegates(obj: Value) {
    (Get(obj, "op") == Str("and") || Get(obj, "op") == Str("or")) && Get(obj, "args").Arr?
  }

  /** The verdict on a node, one case per rule in the order they are
      tried: an `and`/`or` node with an array passes on its arguments'
      first error unchanged; every other node fails exactly when its own
      rule is broken */
  lemma ValidateNodeErrors(env: Env, obj: Value)
    ensures Delegates(obj) ==> ValidateNode(env, obj) == ValidateArgs(env, Get(obj, "args").items)
    ensures !Delegates(obj) ==>
      && (ValidateNode(env, obj) == Fail(NullHasNoProperties) <==> obj.Null? || obj.Undefined?)
      && (ValidateNode(env, obj) == Fail(MissingOp) <==> !obj.Null? && !obj.Undefined? && !Truthy(Get(obj, "op")))
      && (ValidateNode(env, obj) == Fail(ArgsNotArray) <==> Get(obj, "op") == Str("and") || Get(obj, "op") == Str("or"))
      && (ValidateNode(env, obj) == Fail(TypeWithoutString) <==>
            Get(obj, "op") == Str("type") && !Get(obj, "string").Str?)
      && (ValidateNode(env, obj) == Fail(AuthorWithoutFeed) <==>
            Get(obj, "op") == Str("author") && !Get(obj, "feed").Str?)
      && (ValidateNode(env, obj) == Fail(UnknownOp(Get(obj, "op"))) <==>
            && !obj.Null? && !obj.Undefined? && Truthy(Get(obj, "op"))
            && Get(obj, "op") !in [Str("and"), Str("or"), Str("type"), Str("author")])
      && (ValidateNode(env, obj).Pass? <==>
            || (Get(obj, "op") == Str("type") && Get(obj, "string").Str?)
            || (Get(obj, "op") == Str("author") && Get(obj, "feed").Str?))
  {
    var op := Get(obj, "op");
    var r := ValidateNode(env, obj);
    if obj.Null? || obj.Undefined? {
      assert op == Undefined && r == Fail(NullHasNoProperties);
    } else if !Truthy(op) {
      assert r == Fail(MissingOp);
    } else if op == Str("and") || op == Str("or") {
      assert !Get(obj, "args").Arr? ==> r == Fail(ArgsNotArray);
    } else if op == Str("type") {
      assert r == if Get(obj, "string").Str? then Pass else Fail(TypeWithoutString);
    } else if op == Str("author") {
      assert r == if Get(obj, "feed").Str? then Pass else Fail(AuthorWithoutFeed);
    } else {
      assert r == Fail(UnknownOp(op));
    }
  }

  // ---------------------------------------------------------------------
  // parse

  /** `parse(query)` as intended: never throws. A falsy query gives null silently; a
      string that does not decode or whose decoding does not validate, an
      object that does not validate, and any other value give null and one
      warning; otherwise the decoded or given value comes back unchanged. */
  function Parse(env: Env, q: Value): (r: Parsed)
    ensures r.warnings == (if !Truthy(q) || r.result != Null then 0 else 1)
    ensures r.result != Null ==> Some(r.result) == Subject(env, q) && Validate(env, r.result).Pass?
    ensures !q.Str? ==> (r.result != Null <==> Validate(env, q).Pass?)
  {
    if !Truthy(q) then Parsed(Null, 0)
    else if q.Str? then
      match env.decode(q.s)
      case None => Parsed(Null, 1)
      case Some(parsed) => if Validate(env, parsed).Pass? then Parsed(parsed, 0) else Parsed(Null, 1)
    else if IsObjectKind(q) then
      if Validate(env, q).Pass? then Parsed(q, 0) else Parsed(Null, 1)
    else Parsed(Null, 1)
  }

  /** `parse(query)` as written: the `catch` block builds its warning with
      `'…' + query`, and that conversion can throw. It then throws where
      `Parse` returns null with a warning; otherwise the two agree. */
  function ParseAsWritten(env: Env, q: Value): (r: Result<Parsed>)
    ensures r.Ok? ==> r.value == Parse(env, q)
    ensures r.Err? <==> Parse(env, q).warnings == 1 && StringThrows(q)
  {
    if !Truthy(q) then Ok(Parsed(Null, 0))
    else if q.Str? then
      match env.decode(q.s)
      case None => Warn(q)
      case Some(parsed) => if Validate(env, parsed).Pass? then Ok(Parsed(parsed, 0)) else Warn(q)
    else if IsObjectKind(q) then
      if Validate(env, q).Pass? then Ok(Parsed(q, 0)) else Warn(q)
    else Warn(q)
  }

  /** The `catch` block of `parse` */
  function Warn(q: Value): Result<Parsed> {
    if StringThrows(q) then Err(NoPrimitive) else Ok(Parsed(Null, 1))
  }

  /** An object with its own `toString` key, or an array holding one, has
      no `op`: validate throws, and the warning in `catch` throws again,
      so `parse` throws instead of returning null */
  lemma ParseThrowsOnOwnToString(env: Env)
    ensures ParseAsWritten(env, Obj([("toString", Num(1))])) == Err(NoPrimitive)
    ensures ParseAsWritten(env, Arr([Obj([("toString", Num(1))])])) == Err(NoPrimitive)
    ensures Parse(env, Obj([("toString", Num(1))])) == Parsed(Null, 1)
  {
    var obj := Obj([("toString", Num(1))]);
    ValidateObject(env, obj);
    assert Get(obj, "op") == Undefined;
    assert StringThrows(obj);
    assert StringThrows(Arr([obj])) by {
      assert [obj][0] == obj;
    }
  }

  /** A query that validates parses, without a warning, to the object
      validate examined */
  lemma ParseValid(env: Env, q: Value)
    requires Validate(env, q).Pass?
    ensures Parse(env, q) == Parsed(Subject(env, q).value, 0)
  {
    var obj := Subject(env, q).value;
    assert Validate(env, obj) == ValidateNode(env, obj);
  }

  /** The text of a query's text: parse decodes it once and hands the inner
      string to validate, which decodes it again and accepts; validate on
      the outer string finds no `op` on a string */
  lemma ParseAcceptsDoubleEncoded(env: Env, s: string, t: string)
    requires env.decode(s) == Some(Str(t)) && Validate(env, Str(t)).Pass?
    ensures Parse(env, Str(s)) == Parsed(Str(t), 0)
    ensures Validate(env, Str(s)) == Fail(MissingOp)
  {
    SubjectSmaller(env, Str(s));
  }

  /** A string whose decoding is itself a string */
  predicate DoubleEncoded(env: Env, q: Value) {
    q.Str? && env.decode(q.s).Some? && env.decode(q.s).value.Str?
  }

  /** Apart from doubly encoded strings, parse succeeds exactly on valid
      queries */
  lemma ParseAgreesWithValidate(env: Env, q: Value)
    requires !DoubleEncoded(env, q)
    ensures Parse(env, q).result != Null <==> Validate(env, q).Pass?
  {
    if Validate(env, q).Pass? {
      ParseValid(env, q);
    }
  }

  // ---------------------------------------------------------------------
  // toOperator

  /** `toOperator(query, dedicated = false)`: validates, parses, and maps
      `and` and `or` over their arguments (each compiled the same way, so a
      JSON-text argument is decoded), `type` and `author` to leaves that
      carry `dedicated` */
  function ToOperator(env: Env, q: Value, dedicated: bool := false): (r: Result<Op>)
    ensures Validate(env, q).Fail? ==> r == Err(Validate(env, q).error)
    ensures r.Ok? ==> LeavesCarry(r.value, dedicated)
    decreases Size(q), 1, 0
  {
    match Validate(env, q)
    case Fail(e) => Err(e)
    case Pass =>
      ParseValid(env, q);
      SubjectSmaller(env, q);
      var obj := Parse(env, q).result;
      assert ValidateNode(env, obj).Pass?;
      var op := Get(obj, "op");
      if op == Str("and") then
        LookupSmaller(obj.fields, "args");
        match CompileArgs(env, Get(obj, "args").items, dedicated)
        case Err(e) => Err(e)
        case Ok(ops) => Ok(And(ops))
      else if op == Str("or") then
        LookupSmaller(obj.fields, "args");
        match CompileArgs(env, Get(obj, "args").items, dedicated)
        case Err(e) => Err(e)
        case Ok(ops) => Ok(Or(ops))
      else if op == Str("type") then Ok(Type(Some(Get(obj, "string").s), dedicated))
      else Ok(Author(Get(obj, "feed").s, dedicated))
  }

  /** `args.map(op => toOperator(op, dedicated))`, in order; the first
      argument that throws ends the map */
  function CompileArgs(env: Env, items: seq<Value>, dedicated: bool): (r: Result<seq<Op>>)
    ensures r.Ok? ==> |r.value| == |items| && forall i :: 0 <= i < |items| ==> LeavesCarry(r.value[i], dedicated)
    decreases ItemsSize(items), 2, |items|
  {
    if items == [] then Ok([])
    else
      ItemSmaller(items, 0);
      match ToOperator(env, items[0], dedicated)
      case Err(e) => Err(e)
      case Ok(first) =>
        match CompileArgs(env, items[1..], dedicated)
        case Err(e) => Err(e)
        case Ok(rest) => Ok([first] + rest)
  }

  lemma {:induction false} CompileArgsAll(env: Env, items: seq<Value>, d: bool, ops: seq<Op>)
    requires |ops| == |items|
    requires forall i :: 0 <= i < |items| ==> ToOperator(env, items[i], d) == Ok(ops[i])
    ensures CompileArgs(env, items, d) == Ok(ops)
    decreases items
  {
    if items != [] {
      var rest, tail := items[1..], ops[1..];
      forall i | 0 <= i < |rest| ensures ToOperator(env, rest[i], d) == Ok(tail[i]) {
        assert rest[i] == items[i + 1] && tail[i] == ops[i + 1];
      }
      CompileArgsAll(env, rest, d, tail);
      CompileArgsCons(env, items, d, ops[0], tail);
      assert ops == [ops[0]] + tail;
    }
  }

  lemma CompileArgsCons(env: Env, items: seq<Value>, d: bool, first: Op, rest: seq<Op>)
    requires items != [] && ToOperator(env, items[0], d) == Ok(first)
    requires CompileArgs(env, items[1..], d) == Ok(rest)
    ensures CompileArgs(env, items, d) == Ok([first] + rest)
  {
  }

  // ---------------------------------------------------------------------
  // What a query means

  /** The operator tree of a query tree: the same shape, and-nodes to And,
      or-nodes to Or, arguments in order, every leaf carrying `d` */
  function Compile(t: Query, d: bool): (op: Op)
    ensures LeavesCarry(op, d)
    decreases t
  {
    match t
    case AndNode(ts) => And(seq(|ts|, i requires 0 <= i < |ts| => Compile(ts[i], d)))
    case OrNode(ts) => Or(seq(|ts|, i requires 0 <= i < |ts| => Compile(ts[i], d)))
    case TypeLeaf(s) => Type(Some(s), d)
    case AuthorLeaf(f) => Author(f, d)
  }

  /** Reads a query tree back from an operator tree, where it has one */
  function Decompile(op: Op): Option<Query>
    decreases op
  {
    match op
    case And(args) => var ts := DecompileArgs(args); if ts.Some? then Some(AndNode(ts.value)) else None
    case Or(args) => var ts := DecompileArgs(args); if ts.Some? then Some(OrNode(ts.value)) else None
    case Type(msgType, _) => if msgType.Some? then Some(TypeLeaf(msgType.value)) else None
    case Author(feed, _) => Some(AuthorLeaf(feed))
    case IsPrivate => None
    case IsPublic => None
  }

  function DecompileArgs(args: seq<Op>): Option<seq<Query>>
    decreases args
  {
    if args == [] then Some([])
    else
      var first, rest := Decompile(args[0]), DecompileArgs(args[1..]);
      if first.Some? && rest.Some? then Some([first.value] + rest.value) else None
  }

  /** Compiling loses nothing: the query tree is read back from its
      operator tree, whatever the flag */
  lemma {:induction false} DecompileCompile(t: Query, d: bool)
    ensures Decompile(Compile(t, d)) == Some(t)
    decreases t, 1
  {
    match t
    case AndNode(ts) => DecompileCompileArgs(t, d, 0);
    case OrNode(ts) => DecompileCompileArgs(t, d, 0);
    case TypeLeaf(_) =>
    case AuthorLeaf(_) =>
  }

  lemma {:induction false} DecompileCompileArgs(t: Query, d: bool, k: nat)
    requires t.AndNode? || t.OrNode?
    requires k <= |t.args|
    ensures DecompileArgs(Compile(t, d).args[k..]) == Some(t.args[k..])
    decreases t, 0, |t.args| - k
  {
    var ops := Compile(t, d).args;
    if k < |t.args| {
      DecompileCompile(t.args[k], d);
      DecompileCompileArgs(t, d, k + 1);
      assert ops[k..][1..] == ops[k + 1..];
      assert t.args[k..] == [t.args[k]] + t.args[k + 1..];
    }
  }

  /** `v` is a valid query that describes the tree `t`: a truthy string or
      object whose (decoded) node has the op of `t`'s root and, for a leaf,
      its string, or for a node, an array of arguments that describe `t`'s
      children in order */
  predicate Denotes(env: Env, v: Value, t: Query)
    decreases t, 2
  {
    && Truthy(v) && (v.Str? || IsObjectKind(v)) && Subject(env, v).Some?
    && NodeDenotes(env, Subject(env, v).value, t)
  }

  predicate NodeDenotes(env: Env, obj: Value, t: Query)
    decreases t, 1
  {
    match t
    case AndNode(_) => Get(obj, "op") == Str("and") && ArgsDenote(env, Get(obj, "args"), t)
    case OrNode(_) => Get(obj, "op") == Str("or") && ArgsDenote(env, Get(obj, "args"), t)
    case TypeLeaf(s) => Get(obj, "op") == Str("type") && Get(obj, "string") == Str(s)
    case AuthorLeaf(f) => Get(obj, "op") == Str("author") && Get(obj, "feed") == Str(f)
  }

  predicate ArgsDenote(env: Env, args: Value, t: Query)
    requires t.AndNode? || t.OrNode?
    decreases t, 0
  {
    args.Arr? && |args.items| == |t.args| && forall i :: 0 <= i < |t.args| ==> Denotes(env, args.items[i], t.args[i])
  }

  /** A query that describes a tree validates */
  lemma {:induction false} DenotesValid(env: Env, q: Value, t: Query)
    requires Denotes(env, q, t)
    ensures Validate(env, q) == Pass
    decreases t
  {
    var obj := Subject(env, q).value;
    assert NodeDenotes(env, obj, t);
    if t.AndNode? || t.OrNode? {
      assert ArgsDenote(env, Get(obj, "args"), t);
      var items := Get(obj, "args").items;
      forall i | 0 <= i < |items|
        ensures Validate(env, items[i]) == Pass
      {
        DenotesValid(env, items[i], t.args[i]);
      }
      ValidateArgsPass(env, items);
    }
    assert ValidateNode(env, obj) == Pass;
  }

  /** A query that describes a tree validates, and compiles to that tree's
      operator tree */
  lemma {:induction false} DenotesSound(env: Env, q: Value, t: Query, d: bool)
    requires Denotes(env, q, t)
    ensures Validate(env, q) == Pass
    ensures ToOperator(env, q, d) == Ok(Compile(t, d))
    decreases t
  {
    DenotesValid(env, q, t);
    ParseValid(env, q);
    var obj := Subject(env, q).value;
    assert NodeDenotes(env, obj, t);
    if t.AndNode? || t.OrNode? {
      assert ArgsDenote(env, Get(obj, "args"), t);
      var items := Get(obj, "args").items;
      forall i | 0 <= i < |items|
        ensures ToOperator(env, items[i], d) == Ok(Compile(t.args[i], d))
      {
        DenotesSound(env, items[i], t.args[i], d);
      }
      CompileArgsAll(env, items, d, Compile(t, d).args);
    }
  }

  /** Every valid query describes some tree */
  lemma {:induction false} DenotesComplete(env: Env, q: Value)
    requires Validate(env, q).Pass?
    ensures exists t :: Denotes(env, q, t)
    decreases Size(q), 1, 0
  {
    var obj := Subject(env, q).value;
    SubjectSmaller(env, q);
    NodeComplete(env, obj);
    var t :| NodeDenotes(env, obj, t);
    assert Denotes(env, q, t);
  }

  lemma {:induction false} NodeComplete(env: Env, obj: Value)
    requires ValidateNode(env, obj).Pass?
    ensures exists t :: NodeDenotes(env, obj, t)
    decreases Size(obj), 0, 0
  {
    var op := Get(obj, "op");
    if op == Str("and") || op == Str("or") {
      var args := Get(obj, "args");
      LookupSmaller(obj.fields, "args");
      ArgsComplete(env, args.items);
      var ts :| AllDenote(env, args.items, ts);
      var t := if op == Str("and") then AndNode(ts) else OrNode(ts);
      assert ArgsDenote(env, args, t);
      assert NodeDenotes(env, obj, t);
    } else if op == Str("type") {
      assert NodeDenotes(env, obj, TypeLeaf(Get(obj, "string").s));
    } else {
      assert NodeDenotes(env, obj, AuthorLeaf(Get(obj, "feed").s));
    }
  }

  /** Each value describes the tree at the same position */
  predicate AllDenote(env: Env, items: seq<Value>, ts: seq<Query>) {
    |items| == |ts| && forall i :: 0 <= i < |ts| ==> Denotes(env, items[i], ts[i])
  }

  lemma AllDenoteCons(env: Env, items: seq<Value>, t: Query, ts: seq<Query>)
    requires items != [] && Denotes(env, items[0], t) && AllDenote(env, items[1..], ts)
    ensures AllDenote(env, items, [t] + ts)
  {
    var us := [t] + ts;
    forall i | 0 <= i < |us| ensures Denotes(env, items[i], us[i]) {
      if i > 0 {
        assert items[i] == items[1..][i - 1] && us[i] == ts[i - 1];
      }
    }
  }

  lemma {:induction false} ArgsComplete(env: Env, items: seq<Value>)
    requires ValidateArgs(env, items).Pass?
    ensures exists ts :: AllDenote(env, items, ts)
    decreases ItemsSize(items), 2, |items|
  {
    if items == [] {
      assert AllDenote(env, items, []);
    } else {
      ItemSmaller(items, 0);
      DenotesComplete(env, items[0]);
      ArgsComplete(env, items[1..]);
      var t :| Denotes(env, items[0], t);
      var ts :| AllDenote(env, items[1..], ts);
      AllDenoteCons(env, items, t, ts);
    }
  }

  /** validate accepts exactly the queries that describe a tree; that tree
      is unique, and toOperator compiles it */
  lemma ValidateMeans(env: Env, q: Value, d: bool)
    ensures Validate(env, q).Pass? <==> exists t :: Denotes(env, q, t)
    ensures forall t :: Denotes(env, q, t) ==> ToOperator(env, q, d) == Ok(Compile(t, d))
    ensures forall t1, t2 :: Denotes(env, q, t1) && Denotes(env, q, t2) ==> t1 == t2
  {
    if Validate(env, q).Pass? {
      DenotesComplete(env, q);
    }
    forall t | Denotes(env, q, t)
      ensures ToOperator(env, q, d) == Ok(Compile(t, d))
    {
      DenotesSound(env, q, t, d);
    }
    forall t1, t2 | Denotes(env, q, t1) && Denotes(env, q, t2)
      ensures t1 == t2
    {
      DenotesSound(env, q, t1, d);
      DenotesSound(env, q, t2, d);
      DecompileCompile(t1, d);
      DecompileCompile(t2, d);
    }
  }

  /** A two-property node `{op, key: value}` */
  function Node(op: string, key: string, value: Value): Value {
    Obj([("op", Str(op)), (key, value)])
  }

  lemma NodeGet(op: string, key: string, value: Value)
    requires key != "op"
    ensures Get(Node(op, key, value), "op") == Str(op)
    ensures Get(Node(op, key, value), key) == value
  {
    var fields := Node(op, key, value).fields;
    assert fields[1..] == [(key, value)];
    assert Lookup(fields[1..], key) == value;
  }

  /** The plain object form of a tree, as the tests write queries */
  function Encode(t: Query): Value
    decreases t
  {
    match t
    case AndNode(ts) => Node("and", "args", Arr(seq(|ts|, i requires 0 <= i < |ts| => Encode(ts[i]))))
    case OrNode(ts) => Node("or", "args", Arr(seq(|ts|, i requires 0 <= i < |ts| => Encode(ts[i]))))
    case TypeLeaf(s) => Node("type", "string", Str(s))
    case AuthorLeaf(f) => Node("author", "feed", Str(f))
  }

  /** Every tree has a valid object form, which describes it */
  lemma {:induction false} EncodeDenotes(env: Env, t: Query)
    ensures Denotes(env, Encode(t), t)
    decreases t
  {
    match t
    case AndNode(ts) =>
      forall i | 0 <= i < |ts| ensures Denotes(env, Encode(ts[i]), ts[i]) {
        EncodeDenotes(env, ts[i]);
      }
      EncodeNode(env, t);
    case OrNode(ts) =>
      forall i | 0 <= i < |ts| ensures Denotes(env, Encode(ts[i]), ts[i]) {
        EncodeDenotes(env, ts[i]);
      }
      EncodeNode(env, t);
    case TypeLeaf(s) =>
      assert Subject(env, Encode(t)) == Some(Encode(t));
      NodeGet("type", "string", Str(s));
    case AuthorLeaf(f) =>
      assert Subject(env, Encode(t)) == Some(Encode(t));
      NodeGet("author", "feed", Str(f));
  }

  /** An `and` or `or` node's object form describes it when its children's
      object forms describe them */
  lemma EncodeNode(env: Env, t: Query)
    requires t.AndNode? || t.OrNode?
    requires forall i :: 0 <= i < |t.args| ==> Denotes(env, Encode(t.args[i]), t.args[i])
    ensures Denotes(env, Encode(t), t)
  {
    var v := Encode(t);
    assert Subject(env, v) == Some(v);
    var items := seq(|t.args|, i requires 0 <= i < |t.args| => Encode(t.args[i]));
    NodeGet(if t.AndNode? then "and" else "or", "args", Arr(items));
    assert ArgsDenote(env, Get(v, "args"), t);
  }

  /** The object form of a tree validates and compiles to its operator
      tree: empty `and`/`or` nodes and any author string included */
  lemma EncodeCompiles(env: Env, t: Query, d: bool)
    ensures Validate(env, Encode(t)) == Pass
    ensures ToOperator(env, Encode(t), d) == Ok(Compile(t, d))
  {
    EncodeDenotes(env, t);
    DenotesSound(env, Encode(t), t, d);
  }

  /** A JSON text of a tree's object form describes the tree */
  lemma TextDenotes(env: Env, text: string, t: Query)
    requires text != "" && env.decode(text) == Some(Encode(t))
    ensures Denotes(env, Str(text), t)
  {
    EncodeDenotes(env, t);
    assert Subject(env, Encode(t)) == Some(Encode(t));
  }

  /** Arguments may be JSON texts, decoded as they are reached: an `and`
      node whose arguments are texts of trees' object forms describes the
      `and` of those trees, and compiles to it */
  lemma TextArgs(env: Env, args: seq<Value>, ts: seq<Query>, d: bool)
    requires |args| == |ts|
    requires forall i :: 0 <= i < |ts| ==>
      args[i].Str? && args[i].s != "" && env.decode(args[i].s) == Some(Encode(ts[i]))
    ensures Denotes(env, Node("and", "args", Arr(args)), AndNode(ts))
    ensures ToOperator(env, Node("and", "args", Arr(args)), d) == Ok(Compile(AndNode(ts), d))
  {
    var q := Node("and", "args", Arr(args));
    NodeGet("and", "args", Arr(args));
    forall i | 0 <= i < |ts| ensures Denotes(env, args[i], ts[i]) {
      TextDenotes(env, args[i].s, ts[i]);
    }
    assert ArgsDenote(env, Get(q, "args"), AndNode(ts));
    assert Subject(env, q) == Some(q);
    DenotesSound(env, q, AndNode(ts), d);
  }

  /** An error deep inside surfaces unchanged: in an `and` or `or` node,
      the first argument that fails decides the node's error */
  lemma NestedError(env: Env, op: string, before: seq<Value>, bad: Value, after: seq<Value>)
    requires op == "and" || op == "or"
    requires forall j :: 0 <= j < |before| ==> Validate(env, before[j]).Pass?
    requires Validate(env, bad).Fail?
    ensures Validate(env, Node(op, "args", Arr(before + [bad] + after))) == Validate(env, bad)
  {
    var items := before + [bad] + after;
    var q := Node(op, "args", Arr(items));
    NodeGet(op, "args", Arr(items));
    assert items[|before|] == bad;
    assert forall j :: 0 <= j < |before| ==> items[j] == before[j];
    ValidateArgsFirstError(env, items, |before|);
    ValidateObject(env, q);
    ValidateNodeErrors(env, q);
  }

  /** An author leaf is checked only for a string feed: any string passes */
  lemma AuthorFeedNotChecked(env: Env, feed: string)
    ensures Validate(env, Node("author", "feed", Str(feed))) == Pass
  {
    EncodeCompiles(env, AuthorLeaf(feed), false);
  }

  /** `and` and `or` accept an empty argument list */
  lemma EmptyNodesAccepted(env: Env, d: bool)
    ensures ToOperator(env, Node("and", "args", Arr([])), d) == Ok(And([]))
    ensures ToOperator(env, Node("or", "args", Arr([])), d) == Ok(Or([]))
  {
    EncodeCompiles(env, AndNode([]), d);
    EncodeCompiles(env, OrNode([]), d);
    assert Encode(AndNode([])) == Node("and", "args", Arr([]));
    assert Encode(OrNode([])) == Node("or", "args", Arr([]));
  }

  /** An `and` of a type leaf and an author leaf, with dedicated leaves */
  lemma CompileScenario(env: Env, alice: string)
    ensures ToOperator(env, Encode(AndNode([TypeLeaf("vote"), AuthorLeaf(alice)])), true)
      == Ok(And([Type(Some("vote"), true), Author(alice, true)]))
  {
    var t := AndNode([TypeLeaf("vote"), AuthorLeaf(alice)]);
    EncodeCompiles(env, t, true);
    assert Compile(t, true).args == [Type(Some("vote"), true), Author(alice, true)];
  }

  // ---------------------------------------------------------------------
  // stringify and isEquals

  /** `stringify(query)`: `JSON.stringify` of the query as given */
  function Stringify(env: Env, q: Value): string {
    env.encode(q)
  }

  /** An object query whose JSON text decodes back to it is, as text, the
      same query: valid alike, parsed to the object, compiled alike */
  lemma StringifyRoundTrip(env: Env, q: Value, d: bool)
    requires q.Obj? && env.decode(Stringify(env, q)) == Some(q)
    ensures Validate(env, Str(Stringify(env, q))) == Validate(env, q)
    ensures Validate(env, q).Pass? ==> Parse(env, Str(Stringify(env, q))) == Parsed(q, 0)
    ensures ToOperator(env, Str(Stringify(env, q)), d) == ToOperator(env, q, d)
  {
    var text := Stringify(env, q);
    SubjectSmaller(env, Str(text));
    assert Validate(env, q) == ValidateNode(env, q);
    if Validate(env, q).Pass? {
      ParseValid(env, Str(text));
      ParseValid(env, q);
      ValidateMeans(env, q, d);
      var t :| Denotes(env, q, t);
      assert Denotes(env, Str(text), t);
      DenotesSound(env, q, t, d);
      DenotesSound(env, Str(text), t, d);
    }
  }

  /** `isEquals(q1, q2)`: not supported; it throws for every pair */
  function IsEquals(q1: Value, q2: Value): (r: Result<bool>)
    ensures r == Err(NotSupported)
  {
    Err(NotSupported)
  }
}
