/** The textual side of values: JavaScript's string conversion (what a
    template literal does with `${v}`) and the JSON encoding of a flat record
    (section 7 of RFC 8259, with the escapes `JSON.stringify` chooses). */
module JsonText {
  import opened Json

  /** The values a query's template is given: a field's string, null or
      boolean, or undefined where the field is not read from an object */
  predicate Printable(v: Value) {
    v.Undefined? || v.Null? || v.Bool? || v.Str?
  }

  /** `String(v)`, which a template literal applies to each substitution */
  function ToJsString(v: Value): string
    requires Printable(v)
  {
    match v
    case Undefined => "undefined"
    case Null => "null"
    case Bool(b) => if b then "true" else "false"
    case Str(s) => s
  }

  /** `String(v)`, or `'…' + v`, throws a TypeError. No modelled value is
      callable, so an object with an own `toString` key has neither a
      callable `toString` nor a `valueOf` that gives a primitive. An array
      is joined, so it throws when an element other than null or undefined
      does. Every other value converts. */
  predicate StringThrows(v: Value)
    decreases v
  {
    match v
    case Obj(fields) => HasKey(fields, "toString")
    case Arr(items) => exists i :: 0 <= i < |items| && !items[i].Null? && !items[i].Undefined? && StringThrows(items[i])
    case _ => false
  }

  /** A character that a JSON string literal must escape */
  predicate MustEscape(c: char) {
    c == '"' || c == '\\' || c < ' '
  }

  predicate NeedsNoEscape(s: string) {
    forall i :: 0 <= i < |s| ==> !MustEscape(s[i])
  }

  const HexDigits: string := "0123456789abcdef"

  /** The JSON spelling of one character inside a string literal */
  function EscapeChar(c: char): (r: string)
    ensures |r| >= 1
    ensures MustEscape(c) <==> r != [c]
    ensures MustEscape(c) ==> |r| >= 2
  {
    if c == '"' then "\\\""
    else if c == '\\' then "\\\\"
    else if c as int == 8 then "\\b"
    else if c == '\t' then "\\t"
    else if c == '\n' then "\\n"
    else if c as int == 12 then "\\f"
    else if c == '\r' then "\\r"
    else if c < ' ' then "\\u00" + [HexDigits[c as int / 16], HexDigits[c as int % 16]]
    else [c]
  }

  function EscapeAll(s: string): string {
    if s == [] then "" else EscapeChar(s[0]) + EscapeAll(s[1..])
  }

  /** `JSON.stringify(s)` for a string `s` */
  function Quote(s: string): string {
    "\"" + EscapeAll(s) + "\""
  }

  lemma {:induction false} EscapeAllPlain(s: string)
    requires NeedsNoEscape(s)
    ensures EscapeAll(s) == s
  {
    if s != [] {
      EscapeAllPlain(s[1..]);
      assert s == [s[0]] + s[1..];
    }
  }

  /** Escaping never shortens a string, and lengthens every string that has
      a character to escape */
  lemma {:induction false} EscapeAllLength(s: string)
    ensures |EscapeAll(s)| >= |s|
    ensures !NeedsNoEscape(s) ==> |EscapeAll(s)| > |s|
  {
    if s != [] {
      EscapeAllLength(s[1..]);
      if !NeedsNoEscape(s) && !MustEscape(s[0]) {
        var i :| 0 <= i < |s| && MustEscape(s[i]);
        assert s[1..][i - 1] == s[i];
      }
    }
  }

  /** A string with nothing to escape is quoted as it is */
  lemma QuotePlain(s: string)
    requires NeedsNoEscape(s)
    ensures Quote(s) == "\"" + s + "\""
  {
    EscapeAllPlain(s);
  }

  /** The JSON text of a scalar property value */
  function ScalarText(v: Value): string
    requires IsScalar(v)
  {
    match v
    case Str(s) => Quote(s)
    case Null => "null"
    case Bool(b) => if b then "true" else "false"
  }

  /** Values a flat record may hold: strings, null and booleans */
  predicate IsScalar(v: Value) {
    v.Str? || v.Null? || v.Bool?
  }

  predicate Flat(fields: seq<(string, Value)>) {
    forall i :: 0 <= i < |fields| ==> IsScalar(fields[i].1)
  }

  function MembersText(fields: seq<(string, Value)>): string
    requires Flat(fields)
  {
    if fields == [] then ""
    else
      assert forall i :: 1 <= i < |fields| ==> fields[1..][i - 1] == fields[i];
      var m := Quote(fields[0].0) + ":" + ScalarText(fields[0].1);
      if |fields| == 1 then m else m + "," + MembersText(fields[1..])
  }

  lemma MembersCons(fields: seq<(string, Value)>)
    requires |fields| > 1 && Flat(fields)
    ensures MembersText(fields) == Quote(fields[0].0) + ":" + ScalarText(fields[0].1) + "," + MembersText(fields[1..])
  {
  }

  lemma MembersOne(fields: seq<(string, Value)>)
    requires |fields| == 1 && Flat(fields)
    ensures MembersText(fields) == Quote(fields[0].0) + ":" + ScalarText(fields[0].1)
  {
  }

  /** `JSON.stringify(obj)` for an object whose properties are scalars,
      written in the object's own property order */
  function FlatText(fields: seq<(string, Value)>): string
    requires Flat(fields)
  {
    "{" + MembersText(fields) + "}"
  }

  /** The decoder reads back every flat record's JSON text, as `JSON.parse`
      does; only this much of JSON decoding is assumed where stated. */
  ghost predicate DecodesFlatObjects(decode: Decoder) {
    forall fields :: Flat(fields) && DistinctKeys(fields) ==> decode(FlatText(fields)) == Some(Obj(fields))
  }
}
