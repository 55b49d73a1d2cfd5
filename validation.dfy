/** Argument validation: the operation flag must be present, must name one of
    the four operations, and every flag that operation needs must be present.
    The first failing check decides the error. */
module Validation {
  import opened Records

  /** The operations the store accepts. */
  const OperationsIndex: seq<string> := [OpAdd, OpList, OpFind, OpRemove]

  /** The flag that every invocation needs. */
  const RequiredFlag := OperationFlag

  /** The flags each operation needs besides the operation flag. */
  const AdditionalRequiredFlags: map<string, seq<string>> := map[
    OpList := [FileNameFlag],
    OpAdd := [FileNameFlag, ItemFlag],
    OpFind := [FileNameFlag, IdFlag],
    OpRemove := [FileNameFlag, IdFlag]
  ]

  function MissingFlagError(param: string): Error {
    Fail("-" + param + " flag has to be specified")
  }

  function NotAllowedError(operation: string): Error {
    Fail("Operation " + operation + " not allowed!")
  }

  /** validateParamEntered: no error exactly when every listed flag has a
      non-empty value; otherwise the error names the first flag, in list
      order, whose value is empty or absent. */
  function ParamEnteredError(args: Arguments, params: seq<string>): (r: Option<Error>)
    ensures r.None? <==> forall i :: 0 <= i < |params| ==> Lookup(args, params[i]) != ""
    ensures r.Some? ==> exists i :: (0 <= i < |params| && Lookup(args, params[i]) == ""
                                     && (forall j :: 0 <= j < i ==> Lookup(args, params[j]) != "")
                                     && r.value == MissingFlagError(params[i]))
    decreases |params|
  {
    if |params| == 0 then None
    else if Lookup(args, params[0]) == "" then Some(MissingFlagError(params[0]))
    else
      var r := ParamEnteredError(args, params[1..]);
      assert forall i :: 1 <= i < |params| ==> params[i] == params[1..][i - 1];
      r
  }

  /** The loop of validateParamEntered, which stops at the first flag whose
      value is empty. */
  method ValidateParamEntered(args: Arguments, params: seq<string>) returns (err: Option<Error>)
    ensures err == ParamEnteredError(args, params)
  {
    for i := 0 to |params|
      invariant forall j :: 0 <= j < i ==> Lookup(args, params[j]) != ""
    {
      var value := Lookup(args, params[i]);
      if |value| == 0 {
        return Some(MissingFlagError(params[i]));
      }
    }
    return None;
  }

  /** validateOpAllowed: exactly the four operation names are accepted. */
  function OpAllowedError(operation: string): (r: Option<Error>)
    ensures r.None? <==> operation == "add" || operation == "list" || operation == "findById" || operation == "remove"
    ensures r.Some? ==> r.value == NotAllowedError(operation)
  {
    if operation !in OperationsIndex then Some(NotAllowedError(operation)) else None
  }

  /** Go's index into the requirements table: an operation with no entry has
      no extra requirements. */
  function Requirements(params: map<string, seq<string>>, op: string): seq<string> {
    if op in params then params[op] else []
  }

  /** validateConsequently: presence of `reqFlag`, then the operation check,
      then the operation's own flags; the first error is returned. */
  function ValidateConsequently(args: Arguments, reqFlag: string, params: map<string, seq<string>>): Option<Error> {
    var errOperationSpecified := ParamEnteredError(args, [reqFlag]);
    if errOperationSpecified.Some? then errOperationSpecified
    else
      var errAllowed := OpAllowedError(Lookup(args, reqFlag));
      if errAllowed.Some? then errAllowed
      else ParamEnteredError(args, Requirements(params, Lookup(args, reqFlag)))
  }

  /** Validation as the program runs it, with the program's own tables. */
  function Validate(args: Arguments): Option<Error> {
    ValidateConsequently(args, RequiredFlag, AdditionalRequiredFlags)
  }

  /** The flags an operation needs, written out. */
  predicate HasRequiredFlags(args: Arguments, op: string) {
    Lookup(args, FileNameFlag) != ""
    && (op == "add" ==> Lookup(args, ItemFlag) != "")
    && (op == "findById" || op == "remove" ==> Lookup(args, IdFlag) != "")
  }

  /** Validation passes exactly when the operation is one of the four and
      every flag that operation needs has a value. */
  lemma ValidationAccepts(args: Arguments)
    ensures Validate(args).None? <==>
      (Lookup(args, OperationFlag) in {"add", "list", "findById", "remove"}
       && HasRequiredFlags(args, Lookup(args, OperationFlag)))
  {
    var op := Lookup(args, OperationFlag);
    if op in {"add", "list", "findById", "remove"} {
      var req := Requirements(AdditionalRequiredFlags, op);
      assert req[0] == FileNameFlag;
      assert op == "add" ==> req[1] == ItemFlag;
      assert op == "findById" || op == "remove" ==> req[1] == IdFlag;
    }
  }

  /** The operation flag is checked first: when it is absent, or names no
      known operation, that is the error. */
  lemma ValidationChecksOperationFirst(args: Arguments)
    ensures Lookup(args, OperationFlag) == "" ==>
      Validate(args) == Some(MissingFlagError(OperationFlag))
    ensures var op := Lookup(args, OperationFlag);
      op != "" && op !in {"add", "list", "findById", "remove"} ==>
      Validate(args) == Some(NotAllowedError(op))
  {
  }

  /** For a known operation its flags are checked in table order, fileName
      first, and the first one missing is the error. */
  lemma ValidationChecksFlagsInOrder(args: Arguments)
    requires Lookup(args, OperationFlag) in {"add", "list", "findById", "remove"}
    ensures Lookup(args, FileNameFlag) == "" ==>
      Validate(args) == Some(MissingFlagError(FileNameFlag))
    ensures Lookup(args, OperationFlag) == "add" && Lookup(args, FileNameFlag) != ""
            && Lookup(args, ItemFlag) == "" ==>
      Validate(args) == Some(MissingFlagError(ItemFlag))
    ensures var op := Lookup(args, OperationFlag);
      (op == "findById" || op == "remove") && Lookup(args, FileNameFlag) != ""
      && Lookup(args, IdFlag) == "" ==>
      Validate(args) == Some(MissingFlagError(IdFlag))
  {
    var op := Lookup(args, OperationFlag);
    KnownOperationTable(op);
    ParamEnteredPair(args, FileNameFlag, if op == "add" then ItemFlag else IdFlag);
  }

  /** The entry of the requirements table for each known operation. */
  lemma KnownOperationTable(op: string)
    requires op in {"add", "list", "findById", "remove"}
    ensures op == "list" ==> Requirements(AdditionalRequiredFlags, op) == [FileNameFlag]
    ensures op == "add" ==> Requirements(AdditionalRequiredFlags, op) == [FileNameFlag, ItemFlag]
    ensures op == "findById" || op == "remove" ==> Requirements(AdditionalRequiredFlags, op) == [FileNameFlag, IdFlag]
  {
  }

  /** validateParamEntered on a one- and a two-element list, unfolded. */
  lemma ParamEnteredPair(args: Arguments, a: string, b: string)
    ensures ParamEnteredError(args, [a]) == if Lookup(args, a) == "" then Some(MissingFlagError(a)) else None
    ensures ParamEnteredError(args, [a, b]) ==
      if Lookup(args, a) == "" then Some(MissingFlagError(a))
      else if Lookup(args, b) == "" then Some(MissingFlagError(b))
      else None
  {
    assert [a, b][1..] == [b];
    assert [b][1..] == [];
    assert [a][1..] == [];
  }

  /** Once an earlier check fails, the later ones cannot change the result:
      two argument maps with the same missing or unknown operation are
      rejected with the same error, whatever their other flags. */
  lemma ValidationShortCircuits(args1: Arguments, args2: Arguments)
    requires Lookup(args1, OperationFlag) == Lookup(args2, OperationFlag)
    requires Lookup(args1, OperationFlag) !in {"add", "list", "findById", "remove"}
    ensures Validate(args1) == Validate(args2)
    ensures Validate(args1).Some?
  {
  }
}
