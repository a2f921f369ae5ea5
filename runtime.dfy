/** What both query tiers share: the error kinds their validators raise,
    results, and the host functions they call but do not define. */
module Runtime {
  import opened Json

  /** The three fields of a QL0 query */
  datatype Field = AuthorField | TypeField | PrivateField

  /** One kind per `throw` in the validators; the message text is not
      modelled. */
  datatype Error =
    | NotTruthy                // the query is falsy
    | NotStringOrObject        // typeof is neither 'string' nor 'object'
    | DecodeFailed             // JSON.parse threw
    | NullHasNoProperties      // reading keys or a property of null threw
    | TooManyFields            // QL0: more keys than expected
    | MissingField(field: Field)
    | WrongFieldType(field: Field)
    | PrivateWithType          // QL0: private and type both truthy
    | InvalidFeedId            // QL0: author is not a feed id
    | MissingOp                // QL1: falsy op
    | ArgsNotArray             // QL1: and/or without an args array
    | TypeWithoutString        // QL1: type leaf without a string
    | AuthorWithoutFeed        // QL1: author leaf without a feed string
    | UnknownOp(op: Value)     // QL1: any other op
    | NotSupported             // QL1: isEquals
    | NoPrimitive              // turning an object into a string threw

  /** A validator's verdict: it returns nothing or throws */
  datatype Outcome = Pass | Fail(error: Error)

  datatype Result<+T> = Ok(value: T) | Err(error: Error)

  /** The functions the compilers call from outside: `JSON.parse`,
      `JSON.stringify` and the `isFeedId` check of the ssb-ref package */
  datatype Env = Env(decode: Decoder, encode: Value -> string, isFeedId: string -> bool)

  /** What a best-effort parse gives back: the query or null, and how many
      warnings it printed */
  datatype Parsed = Parsed(result: Value, warnings: nat)

  /** What a validator inspects: a string query decoded, any other as given */
  function Subject(env: Env, q: Value): Option<Value> {
    if q.Str? then env.decode(q.s) else Some(q)
  }

  /** Decoding a string query yields something smaller than the query */
  lemma SubjectSmaller(env: Env, q: Value)
    requires Subject(env, q).Some?
    ensures Size(Subject(env, q).value) <= Size(q)
    ensures q.Str? ==> Size(Subject(env, q).value) < Size(q)
  {
    if q.Str? {
      assert DecodeShrinks(env.decode);
    }
  }
}
