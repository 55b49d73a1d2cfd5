/** The record store's value types: records, the argument map, errors and the
    flag and operation names shared by every part of the program. */
module Records {

  /** A signed 8-bit integer, the width of a record's age. */
  type Int8 = x: int | -128 <= x < 128

  /** One stored entry of the backing file. */
  datatype Record = Record(id: string, email: string, age: Int8)

  /** Flag name to flag value, as collected from the command line. */
  type Arguments = map<string, string>

  datatype Option<+T> = None | Some(value: T) {
    predicate IsFailure() { None? }
    function PropagateFailure<U>(): Option<U> requires None? { None }
    function Extract(): T requires Some? { value }
  }

  /** A Go `error` value that is not nil: either a message built by this
      program or the decoder's rejection of malformed text. */
  datatype Error = Fail(message: string) | MalformedJson

  /** The `(value, error)` pair a Go function returns, with exactly one half set. */
  datatype Result<+T> = Ok(value: T) | Err(error: Error)

  const OperationFlag := "operation"
  const FileNameFlag := "fileName"
  const ItemFlag := "item"
  const IdFlag := "id"

  const OpAdd := "add"
  const OpList := "list"
  const OpFind := "findById"
  const OpRemove := "remove"

  /** Go's map index on Arguments: a missing key reads as the empty string. */
  function Lookup(args: Arguments, key: string): string {
    if key in args then args[key] else ""
  }

  /** The position of the first record whose id is `id`, if any. */
  function IndexOfId(m: seq<Record>, id: string): (r: Option<nat>)
    ensures r.Some? ==> r.value < |m| && m[r.value].id == id
    ensures r.Some? ==> forall j :: 0 <= j < r.value ==> m[j].id != id
    ensures r.None? ==> forall j :: 0 <= j < |m| ==> m[j].id != id
    decreases |m|
  {
    if |m| == 0 then None
    else if m[0].id == id then Some(0)
    else match IndexOfId(m[1..], id)
      case None => None
      case Some(k) => Some(k + 1)
  }

  /** No two records of `m` share the id `id`. */
  predicate AtMostOneWithId(m: seq<Record>, id: string) {
    forall i, j :: 0 <= i < j < |m| && m[i].id == id ==> m[j].id != id
  }
}
