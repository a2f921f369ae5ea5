/** JavaScript values as the two query compilers receive them, and the few
    JavaScript operations they apply to them: truthiness, `typeof`, property
    reads, `Object.keys`, structural equality (the `nano-equal` package) and
    a size measure that JSON decoding never increases. */
module Json {

  datatype Option<+T> = None | Some(value: T)

  /** A JavaScript value. Numbers are integers here; functions, symbols and
      NaN do not occur in queries and are not represented. An object is the
      list of its own enumerable properties in insertion order. */
  datatype Value =
    | Undefined
    | Null
    | Bool(b: bool)
    | Num(n: int)
    | Str(s: string)
    | Arr(items: seq<Value>)
    | Obj(fields: seq<(string, Value)>)

  /** `!!v` */
  predicate Truthy(v: Value) {
    match v
    case Undefined => false
    case Null => false
    case Bool(b) => b
    case Num(n) => n != 0
    case Str(s) => s != ""
    case _ => true
  }

  /** `typeof v === 'object'` (true of null and of arrays too) */
  predicate IsObjectKind(v: Value) {
    v.Null? || v.Arr? || v.Obj?
  }

  /** The keys of an object's own properties, in order */
  function KeysOf(fields: seq<(string, Value)>): (keys: seq<string>)
    ensures |keys| == |fields|
    ensures forall i :: 0 <= i < |fields| ==> keys[i] == fields[i].0
  {
    if fields == [] then [] else [fields[0].0] + KeysOf(fields[1..])
  }

  predicate HasKey(fields: seq<(string, Value)>, k: string) {
    k in KeysOf(fields)
  }

  /** No two properties share a key, as in every JavaScript object */
  predicate DistinctKeys(fields: seq<(string, Value)>) {
    forall i, j :: 0 <= i < j < |fields| ==> fields[i].0 != fields[j].0
  }

  /** `obj[k]` on an object: the property's value, or undefined */
  function Lookup(fields: seq<(string, Value)>, k: string): Value {
    if fields == [] then Undefined
    else if fields[0].0 == k then fields[0].1
    else Lookup(fields[1..], k)
  }

  /** `v[k]` for a value that is not null or undefined. No primitive and no
      array has an own or inherited property named like the ones the query
      compilers read (`author`, `type`, `private`, `op`, `args`, `string`,
      `feed`), so those reads give undefined on anything but an object. */
  function Get(v: Value, k: string): Value {
    if v.Obj? then Lookup(v.fields, k) else Undefined
  }

  /** Decimal digits of a natural number, as JavaScript prints it */
  function Decimal(n: nat): (r: string)
    ensures r != [] && forall i :: 0 <= i < |r| ==> '0' <= r[i] <= '9'
  {
    var d := ['0' + (n % 10) as char];
    if n < 10 then d else Decimal(n / 10) + d
  }

  /** The keys `"0"`, `"1"`, ... of an array's elements or of a string's
      positions. A modelled string is a sequence of code points, while a
      JavaScript string has one key per UTF-16 code unit, so a string with
      characters outside the Basic Multilingual Plane gets fewer keys here. */
  function IndexKeys(n: nat): (keys: seq<string>)
    ensures |keys| == n
    ensures forall k :: k in keys ==> k != [] && '0' <= k[0] <= '9'
  {
    seq(n, i requires 0 <= i < n => Decimal(i))
  }

  /** `Object.keys(v)`; None when it throws, which it does on null and
      undefined. The key order of objects with integer-like keys is not
      modelled: the compilers only count the keys and test membership. */
  function ObjectKeys(v: Value): Option<seq<string>> {
    match v
    case Undefined => None
    case Null => None
    case Bool(_) => Some([])
    case Num(_) => Some([])
    case Str(s) => Some(IndexKeys(|s|))
    case Arr(items) => Some(IndexKeys(|items|))
    case Obj(fields) => Some(KeysOf(fields))
  }

  /** A named key never appears among the index keys of a string or array */
  lemma NamedKeyNotIndex(n: nat, k: string)
    requires k != [] && !('0' <= k[0] <= '9')
    ensures k !in IndexKeys(n)
  {
  }

  /** A lower bound on the length of any JSON text that denotes `v`: a
      string needs its characters and two quotes, `null`, `true` and `false`
      at least four characters, a number at least one digit, an array or
      object its brackets and, per property, its quoted key and a colon. */
  function Size(v: Value): nat
    decreases v
  {
    match v
    case Undefined => 0
    case Null => 4
    case Bool(_) => 4
    case Num(_) => 1
    case Str(s) => |s| + 2
    case Arr(items) => 2 + ItemsSize(items)
    case Obj(fields) => 2 + FieldsSize(fields)
  }

  function ItemsSize(items: seq<Value>): nat
    decreases items
  {
    if items == [] then 0 else Size(items[0]) + ItemsSize(items[1..])
  }

  function FieldsSize(fields: seq<(string, Value)>): nat
    decreases fields
  {
    if fields == [] then 0
    else
      var (k, x) := fields[0];
      assert x < fields[0];
      |k| + 3 + Size(x) + FieldsSize(fields[1..])
  }

  lemma {:induction false} LookupSmaller(fields: seq<(string, Value)>, k: string)
    ensures Size(Lookup(fields, k)) <= FieldsSize(fields)
    decreases fields
  {
    if fields != [] && fields[0].0 != k {
      LookupSmaller(fields[1..], k);
    }
  }

  /** Every key costs its length, quotes and colon in the text */
  lemma {:induction false} KeySmaller(fields: seq<(string, Value)>, k: string)
    requires HasKey(fields, k)
    ensures |k| + 3 <= FieldsSize(fields)
    decreases fields
  {
    assert fields != [];
    if fields[0].0 != k {
      assert KeysOf(fields) == [fields[0].0] + KeysOf(fields[1..]);
      KeySmaller(fields[1..], k);
    }
  }

  lemma {:induction false} ItemSmaller(items: seq<Value>, i: nat)
    requires i < |items|
    ensures Size(items[i]) <= ItemsSize(items)
    decreases i
  {
    if i > 0 {
      ItemSmaller(items[1..], i - 1);
    }
  }

  /** A decoder never yields a value larger than its text, which holds of
      `JSON.parse` because every value's Size bounds its shortest text. */
  ghost predicate DecodeShrinks(decode: string -> Option<Value>) {
    forall text :: decode(text).Some? ==> Size(decode(text).value) <= |text|
  }

  /** `JSON.parse`: a partial function from text to values; None stands for
      the SyntaxError it throws. */
  type Decoder = decode: string -> Option<Value> | DecodeShrinks(decode)
    witness (text: string) => None

  /** `nanoEqual(a, b)`: structural equality in which the order of an
      object's properties does not matter. */
  function DeepEqual(a: Value, b: Value): bool
    decreases a
  {
    match a
    case Arr(xs) => b.Arr? && |xs| == |b.items| && ItemsEqual(xs, b.items)
    case Obj(fs) => b.Obj? && |fs| == |b.fields| && FieldsEqual(fs, b.fields)
    case _ => a == b
  }

  function ItemsEqual(xs: seq<Value>, ys: seq<Value>): bool
    requires |xs| == |ys|
    decreases xs
  {
    xs == [] || (DeepEqual(xs[0], ys[0]) && ItemsEqual(xs[1..], ys[1..]))
  }

  /** Every property of `fs` has a deep-equal counterpart `gs[key]` */
  function FieldsEqual(fs: seq<(string, Value)>, gs: seq<(string, Value)>): bool
    decreases fs
  {
    if fs == [] then true
    else
      var (k, x) := fs[0];
      assert x < fs[0];
      DeepEqual(x, Lookup(gs, k)) && FieldsEqual(fs[1..], gs)
  }

  lemma {:induction false} FieldsEqualMeans(fs: seq<(string, Value)>, gs: seq<(string, Value)>)
    ensures FieldsEqual(fs, gs) <==>
      forall i :: 0 <= i < |fs| ==> DeepEqual(fs[i].1, Lookup(gs, fs[i].0))
    decreases fs
  {
    if fs != [] {
      FieldsEqualMeans(fs[1..], gs);
      assert forall i :: 1 <= i < |fs| ==> fs[i] == fs[1..][i - 1];
    }
  }

  /** With distinct keys, a key's lookup finds the property that has it */
  lemma {:induction false} LookupAt(fields: seq<(string, Value)>, i: nat)
    requires i < |fields| && DistinctKeys(fields)
    ensures Lookup(fields, fields[i].0) == fields[i].1
    decreases i
  {
    if i > 0 {
      assert fields[0].0 != fields[i].0;
      LookupAt(fields[1..], i - 1);
    }
  }

  lemma {:induction false} LookupMissing(fields: seq<(string, Value)>, k: string)
    requires !HasKey(fields, k)
    ensures Lookup(fields, k) == Undefined
    decreases fields
  {
    if fields != [] {
      assert fields[0].0 == KeysOf(fields)[0];
      assert KeysOf(fields[1..]) == KeysOf(fields)[1..];
      LookupMissing(fields[1..], k);
    }
  }

  /** A key of one object is a key of any reordering of it, with the same value */
  lemma PermutedKey(fs: seq<(string, Value)>, gs: seq<(string, Value)>, k: string)
    requires DistinctKeys(fs) && DistinctKeys(gs) && multiset(fs) == multiset(gs)
    requires HasKey(fs, k)
    ensures HasKey(gs, k) && Lookup(fs, k) == Lookup(gs, k)
  {
    var i :| 0 <= i < |fs| && KeysOf(fs)[i] == k;
    assert fs[i] in multiset(gs);
    var j :| 0 <= j < |gs| && gs[j] == fs[i];
    assert KeysOf(gs)[j] == k;
    LookupAt(fs, i);
    LookupAt(gs, j);
  }

  /** Reordering an object's properties changes neither which keys it has
      nor what they hold */
  lemma PermutedLookup(fs: seq<(string, Value)>, gs: seq<(string, Value)>, k: string)
    requires DistinctKeys(fs) && DistinctKeys(gs) && multiset(fs) == multiset(gs)
    ensures HasKey(fs, k) <==> HasKey(gs, k)
    ensures Lookup(fs, k) == Lookup(gs, k)
  {
    if HasKey(fs, k) {
      PermutedKey(fs, gs, k);
    }
    if HasKey(gs, k) {
      PermutedKey(gs, fs, k);
    }
    if !HasKey(fs, k) && !HasKey(gs, k) {
      LookupMissing(fs, k);
      LookupMissing(gs, k);
    }
  }
}
