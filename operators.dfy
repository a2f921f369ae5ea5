/** The operator tree both tiers compile to: the constructors of the
    database's query operators, taken as plain data. */
module Operators {
  import opened Json

  /** `dedicated` is the flag each leaf passes on to the engine: whether it
      may build an index of its own for this predicate. */
  datatype Op =
    | And(args: seq<Op>)
    | Or(args: seq<Op>)
    | Author(feed: string, dedicated: bool)
    | Type(msgType: Option<string>, dedicated: bool)
    | IsPrivate
    | IsPublic

  /** Every author and type leaf of `op` carries the flag `d` */
  predicate LeavesCarry(op: Op, d: bool)
    decreases op
  {
    match op
    case And(args) => forall i :: 0 <= i < |args| ==> LeavesCarry(args[i], d)
    case Or(args) => forall i :: 0 <= i < |args| ==> LeavesCarry(args[i], d)
    case Author(_, dedicated) => dedicated == d
    case Type(_, dedicated) => dedicated == d
    case IsPrivate => true
    case IsPublic => true
  }
}
