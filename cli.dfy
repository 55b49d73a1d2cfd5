/** The command line: collecting the flags into an argument map, and Perform,
    which validates the map, runs one handler and writes its bytes. */
module Cli {
  import opened Records
  import opened Validation
  import opened Store

  /** The output stream Perform writes to. */
  class Writer {
    var bytes: string

    constructor ()
      ensures bytes == ""
    {
      bytes := "";
    }

    method Write(buf: string)
      modifies this
      ensures bytes == old(bytes) + buf
    {
      bytes := bytes + buf;
    }
  }

  /** The flags parseArgs registers, in order. */
  const FlagNames: seq<string> := [OperationFlag, FileNameFlag, ItemFlag, IdFlag]

  /** The loop of parseArgs over the values the flag parser filled in: a flag
      gets a key exactly when its value is not empty, and the key maps to
      that value. */
  method ParseArgs(flagValues: seq<string>) returns (args: Arguments)
    requires |flagValues| == |FlagNames|
    ensures forall i :: 0 <= i < |FlagNames| ==> (FlagNames[i] in args <==> flagValues[i] != "")
    ensures forall i :: 0 <= i < |FlagNames| ==> Lookup(args, FlagNames[i]) == flagValues[i]
    ensures forall k :: k in args ==> k in FlagNames
  {
    args := map[];
    var indx := 0;
    while indx < |FlagNames|
      invariant 0 <= indx <= |FlagNames|
      invariant forall i :: 0 <= i < indx ==> (FlagNames[i] in args <==> flagValues[i] != "")
      invariant forall i :: 0 <= i < indx && flagValues[i] != "" ==> args[FlagNames[i]] == flagValues[i]
      invariant forall k :: k in args ==> k in FlagNames[..indx]
    {
      if |flagValues[indx]| > 0 {
        args := args[FlagNames[indx] := flagValues[indx]];
      }
      indx := indx + 1;
    }
  }

  /** The `switch` of Perform. It has no default case, so an operation outside
      the four runs no handler and yields nothing. */
  function Dispatch(args: Arguments, files: Files): Outcome {
    var op := Lookup(args, OperationFlag);
    if op == OpList then ListResult(args, files)
    else if op == OpAdd then AddResult(args, files)
    else if op == OpFind then FindResult(args, files)
    else if op == OpRemove then RemoveResult(args, files)
    else Outcome(Ok(""), files)
  }

  /** One run of Perform: the error it returns, the files after it and the
      bytes it writes. */
  datatype Run = Run(err: Option<Error>, files: Files, output: string)

  function PerformResult(args: Arguments, files: Files): Run {
    var invalid := Validate(args);
    if invalid.Some? then Run(invalid, files, "")
    else
      var o := Dispatch(args, files);
      match o.reply
      case Err(e) => Run(Some(e), o.files, "")
      case Ok(buf) => Run(None, o.files, buf)
  }

  /** The remove handler is defined only when at most one record has the id;
      a remove invocation that fails validation never reaches it. */
  predicate RemoveDefined(args: Arguments, files: Files) {
    Lookup(args, OperationFlag) == OpRemove && Validate(args).None? ==> UniqueTarget(args, files)
  }

  method Perform(args: Arguments, fs: FileSystem, writer: Writer) returns (err: Option<Error>)
    requires RemoveDefined(args, fs.files)
    modifies fs, writer
    ensures var run := PerformResult(args, old(fs.files));
      err == run.err && fs.files == run.files && writer.bytes == old(writer.bytes) + run.output
  {
    var err0 := ValidateConsequently(args, RequiredFlag, AdditionalRequiredFlags);
    if err0.Some? {
      return err0;
    }
    var reply: Result<string> := Ok("");
    var op := Lookup(args, OperationFlag);
    if op == OpList {
      reply := List(fs, args);
    } else if op == OpAdd {
      reply := Add(fs, args);
    } else if op == OpFind {
      reply := Find(fs, args);
    } else if op == OpRemove {
      reply := Remove(fs, args);
    }
    if reply.Err? {
      return Some(reply.error);
    }
    writer.Write(reply.value);
    return None;
  }

  // ---------------------------------------------------------------------
  // Properties of Perform

  /** When validation fails, that error is returned, no handler runs, the
      files are untouched and nothing is written. Validation fails exactly
      when the operation is unknown or one of its flags is missing. */
  lemma PerformRejectsInvalid(args: Arguments, files: Files)
    requires Lookup(args, OperationFlag) !in {"add", "list", "findById", "remove"}
             || !HasRequiredFlags(args, Lookup(args, OperationFlag))
    ensures var run := PerformResult(args, files);
      run.err.Some? && run.err == Validate(args) && run.files == files && run.output == ""
  {
    ValidationAccepts(args);
  }

  /** When validation passes, exactly the handler the operation names runs:
      its error is returned with nothing written, or its bytes are written
      and no error is returned. The default branch is never taken. */
  lemma PerformRunsOneHandler(args: Arguments, files: Files)
    requires Lookup(args, OperationFlag) in {"add", "list", "findById", "remove"}
    requires HasRequiredFlags(args, Lookup(args, OperationFlag))
    ensures var op, run := Lookup(args, OperationFlag), PerformResult(args, files);
      var o := if op == "list" then ListResult(args, files)
               else if op == "add" then AddResult(args, files)
               else if op == "findById" then FindResult(args, files)
               else RemoveResult(args, files);
      run.files == o.files
      && (o.reply.Err? ==> run.err == Some(o.reply.error) && run.output == "")
      && (o.reply.Ok? ==> run.err.None? && run.output == o.reply.value)
  {
    ValidationAccepts(args);
  }

  /** Without a file name nothing is touched, whatever the operation. */
  lemma PerformNeedsFileName(args: Arguments, files: Files)
    requires Lookup(args, FileNameFlag) == ""
    ensures var run := PerformResult(args, files);
      run.err.Some? && run.files == files && run.output == ""
  {
    ValidationAccepts(args);
  }
}
