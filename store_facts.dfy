/** What the handlers promise, stated on the files before and after one call
    and, for pairs of calls, on what a later call sees of an earlier one. */
module StoreFacts {
  import opened Records
  import opened Codec
  import opened Store

  /** add reads `m` from the file: an empty file is the empty collection. */
  predicate LoadsForAdd(files: Files, name: string, m: seq<Record>) {
    if Stored(files, name) == "" then m == [] else Unmarshal(Stored(files, name)) == Ok(m)
  }

  /** find and remove read `m` from a file that is not empty. */
  predicate Loads(files: Files, name: string, m: seq<Record>) {
    Stored(files, name) != "" && Unmarshal(Stored(files, name)) == Ok(m)
  }

  /** `after` differs from `before` at most at `name`. */
  ghost predicate OthersUnchanged(before: Files, after: Files, name: string) {
    forall p :: p != name ==> (p in after <==> p in before) && (p in before ==> after[p] == before[p])
  }

  /** A duplicate id: the reply is the "already exists" message and the file
      is not written (it is only created, empty, if it was absent). */
  lemma AddRejectsDuplicate(args: Arguments, files: Files, m: seq<Record>, n: Record)
    requires LoadsForAdd(files, Lookup(args, FileNameFlag), m)
    requires UnmarshalRecord(Lookup(args, ItemFlag)) == Ok(n)
    requires exists i :: 0 <= i < |m| && m[i].id == n.id
    ensures AddResult(args, files).reply == Ok(AlreadyExists(n.id))
    ensures AddResult(args, files).files == Opened(files, Lookup(args, FileNameFlag))
  {
  }

  /** A new id: the record is appended at the end of the collection, the
      result is written, and what is written is what is replied. */
  lemma AddAppends(args: Arguments, files: Files, m: seq<Record>, n: Record)
    requires LoadsForAdd(files, Lookup(args, FileNameFlag), m)
    requires UnmarshalRecord(Lookup(args, ItemFlag)) == Ok(n)
    requires forall i :: 0 <= i < |m| ==> m[i].id != n.id
    ensures var name, o := Lookup(args, FileNameFlag), AddResult(args, files);
      name in o.files && o.reply == Ok(o.files[name])
      && Unmarshal(o.files[name]) == Ok(m + [n])
      && OthersUnchanged(files, o.files, name)
  {
    UnmarshalMarshal(m + [n]);
  }

  /** find returns the first record with the id, alone, and writes nothing. */
  lemma FindReturnsFirst(args: Arguments, files: Files, m: seq<Record>, i: nat)
    requires Loads(files, Lookup(args, FileNameFlag), m)
    requires i < |m| && m[i].id == Lookup(args, IdFlag)
    requires forall j :: 0 <= j < i ==> m[j].id != Lookup(args, IdFlag)
    ensures var o := FindResult(args, files);
      o.reply == Ok(MarshalRecord(m[i])) && UnmarshalRecord(o.reply.value) == Ok(m[i])
      && o.files == files
  {
    var id := Lookup(args, IdFlag);
    assert IndexOfId(m, id) == Some(i);
    UnmarshalMarshalRecord(m[i]);
  }

  /** find with no matching record: empty output, no error, no write. */
  lemma FindMissIsSilent(args: Arguments, files: Files, m: seq<Record>)
    requires Loads(files, Lookup(args, FileNameFlag), m)
    requires forall j :: 0 <= j < |m| ==> m[j].id != Lookup(args, IdFlag)
    ensures FindResult(args, files) == Outcome(Ok(""), files)
  {
  }

  /** An empty or absent file is an error for find and remove (the absent
      file is created empty), while add treats it as an empty collection and
      writes the one new record. */
  lemma EmptyFileRejectedBySearches(args: Arguments, files: Files)
    requires Stored(files, Lookup(args, FileNameFlag)) == ""
    ensures var created := Opened(files, Lookup(args, FileNameFlag));
      FindResult(args, files) == Outcome(Err(NoData), created)
      && RemoveResult(args, files) == Outcome(Err(NoData), created)
    ensures var name, item := Lookup(args, FileNameFlag), UnmarshalRecord(Lookup(args, ItemFlag));
      item.Ok? ==> AddResult(args, files) == Outcome(Ok(Marshal([item.value])), Opened(files, name)[name := Marshal([item.value])])
  {
  }

  /** find and list never write: at most the absent file is created. */
  lemma ReadersNeverWrite(args: Arguments, files: Files)
    ensures FindResult(args, files).files == Opened(files, Lookup(args, FileNameFlag))
    ensures ListResult(args, files).files == Opened(files, Lookup(args, FileNameFlag))
  {
  }

  /** A handler that fails writes nothing. */
  lemma FailuresWriteNothing(args: Arguments, files: Files)
    ensures AddResult(args, files).reply.Err? ==>
      AddResult(args, files).files == Opened(files, Lookup(args, FileNameFlag))
    ensures RemoveResult(args, files).reply.Err? ==>
      RemoveResult(args, files).files == Opened(files, Lookup(args, FileNameFlag))
  {
  }

  /** list passes the file's bytes through unchanged; on a file that did not
      exist it replies nothing and leaves the file present and empty. */
  lemma ListPassesThrough(args: Arguments, files: Files)
    ensures ListResult(args, files).reply == Ok(Stored(files, Lookup(args, FileNameFlag)))
    ensures var name := Lookup(args, FileNameFlag);
      name !in files ==> ListResult(args, files) == Outcome(Ok(""), files[name := ""])
  {
  }

  /** remove with exactly one matching record: that record is deleted, the
      others keep their order, the collection shrinks by one, and the result
      is written and replied. */
  lemma RemoveDeletesOne(args: Arguments, files: Files, m: seq<Record>, k: nat)
    requires Loads(files, Lookup(args, FileNameFlag), m)
    requires Lookup(args, IdFlag) != ""
    requires k < |m| && m[k].id == Lookup(args, IdFlag)
    requires forall j :: 0 <= j < |m| && j != k ==> m[j].id != Lookup(args, IdFlag)
    ensures var name, o := Lookup(args, FileNameFlag), RemoveResult(args, files);
      var left := m[..k] + m[k + 1..];
      name in o.files && o.reply == Ok(o.files[name])
      && Unmarshal(o.files[name]) == Ok(left)
      && |left| == |m| - 1
      && (forall j :: 0 <= j < |left| ==> left[j].id != Lookup(args, IdFlag))
      && multiset(left) + multiset{m[k]} == multiset(m)
      && OthersUnchanged(files, o.files, name)
  {
    RemoveWrites(args, files, m, k);
    UnmarshalMarshal(m[..k] + m[k + 1..]);
    DeleteAt(m, k, Lookup(args, IdFlag));
  }

  /** What remove writes when position `k` holds the only match. */
  lemma RemoveWrites(args: Arguments, files: Files, m: seq<Record>, k: nat)
    requires Loads(files, Lookup(args, FileNameFlag), m)
    requires Lookup(args, IdFlag) != ""
    requires k < |m| && m[k].id == Lookup(args, IdFlag)
    requires forall j :: 0 <= j < k ==> m[j].id != Lookup(args, IdFlag)
    ensures var left := Marshal(m[..k] + m[k + 1..]);
      RemoveResult(args, files) == Outcome(Ok(left), files[Lookup(args, FileNameFlag) := left])
  {
    var name, id := Lookup(args, FileNameFlag), Lookup(args, IdFlag);
    var buf := Stored(files, name);
    assert |buf| != 0 && Unmarshal(buf) == Ok(m);
    assert IndexOfId(m, id) == Some(k);
  }

  /** Deleting position `k`, the only one holding `id`, leaves a sequence one
      shorter without `id` and with the same other elements. */
  lemma DeleteAt(m: seq<Record>, k: nat, id: string)
    requires k < |m| && m[k].id == id
    requires forall j :: 0 <= j < |m| && j != k ==> m[j].id != id
    ensures var left := m[..k] + m[k + 1..];
      |left| == |m| - 1
      && (forall j :: 0 <= j < |left| ==> left[j].id != id)
      && multiset(left) + multiset{m[k]} == multiset(m)
  {
    var left := m[..k] + m[k + 1..];
    forall j | 0 <= j < |left|
      ensures left[j].id != id
    {
      if j < k { assert left[j] == m[j]; } else { assert left[j] == m[j + 1]; }
    }
    assert m == m[..k] + [m[k]] + m[k + 1..];
  }

  /** remove with no matching record: the "not found" message, no write. */
  lemma RemoveMissingReports(args: Arguments, files: Files, m: seq<Record>)
    requires Loads(files, Lookup(args, FileNameFlag), m)
    requires forall j :: 0 <= j < |m| ==> m[j].id != Lookup(args, IdFlag)
    ensures RemoveResult(args, files) == Outcome(Ok(NotFound(Lookup(args, IdFlag))), files)
  {
  }

  /** remove decides "found" by the id it copied from the deleted record, so
      an empty id, even when one record has it, is reported as not found and
      nothing is written. (With two records of empty id the source's loop
      indexes past the shrunken slice.) */
  lemma RemoveEmptyIdNeverWrites(args: Arguments, files: Files, m: seq<Record>)
    requires Loads(files, Lookup(args, FileNameFlag), m)
    requires Lookup(args, IdFlag) == ""
    requires AtMostOneWithId(m, "")
    ensures RemoveResult(args, files) == Outcome(Ok(NotFound("")), files)
  {
  }

  /** A record added under a new id is what a later find of that id returns. */
  lemma AddThenFind(addArgs: Arguments, findArgs: Arguments, files: Files, m: seq<Record>, n: Record)
    requires LoadsForAdd(files, Lookup(addArgs, FileNameFlag), m)
    requires UnmarshalRecord(Lookup(addArgs, ItemFlag)) == Ok(n)
    requires forall i :: 0 <= i < |m| ==> m[i].id != n.id
    requires Lookup(findArgs, FileNameFlag) == Lookup(addArgs, FileNameFlag)
    requires Lookup(findArgs, IdFlag) == n.id
    ensures FindResult(findArgs, AddResult(addArgs, files).files).reply == Ok(MarshalRecord(n))
  {
    var added := m + [n];
    AddAppends(addArgs, files, m, n);
    var afterAdd := AddResult(addArgs, files).files;
    assert Loads(afterAdd, Lookup(findArgs, FileNameFlag), added);
    FindReturnsFirst(findArgs, afterAdd, added, |m|);
  }

  /** Removing the id of a record just added under a new, non-empty id
      restores the collection that was there before; remove's precondition
      holds on the file add wrote. */
  lemma AddThenRemove(addArgs: Arguments, removeArgs: Arguments, files: Files, m: seq<Record>, n: Record)
    requires LoadsForAdd(files, Lookup(addArgs, FileNameFlag), m)
    requires UnmarshalRecord(Lookup(addArgs, ItemFlag)) == Ok(n)
    requires forall i :: 0 <= i < |m| ==> m[i].id != n.id
    requires n.id != ""
    requires Lookup(removeArgs, FileNameFlag) == Lookup(addArgs, FileNameFlag)
    requires Lookup(removeArgs, IdFlag) == n.id
    ensures var afterAdd := AddResult(addArgs, files).files;
      UniqueTarget(removeArgs, afterAdd)
      && Unmarshal(Stored(RemoveResult(removeArgs, afterAdd).files, Lookup(addArgs, FileNameFlag))) == Ok(m)
  {
    AddAppends(addArgs, files, m, n);
    RemoveLastAdded(removeArgs, AddResult(addArgs, files).files, m, n);
  }

  /** remove on a file holding `m` followed by `n`, where only `n` has the
      (non-empty) id: the file is written back holding `m`. */
  lemma RemoveLastAdded(args: Arguments, files: Files, m: seq<Record>, n: Record)
    requires Lookup(args, FileNameFlag) in files
    requires Unmarshal(files[Lookup(args, FileNameFlag)]) == Ok(m + [n])
    requires forall i :: 0 <= i < |m| ==> m[i].id != n.id
    requires n.id != "" && Lookup(args, IdFlag) == n.id
    ensures UniqueTarget(args, files)
    ensures Unmarshal(Stored(RemoveResult(args, files).files, Lookup(args, FileNameFlag))) == Ok(m)
  {
    var name, added := Lookup(args, FileNameFlag), m + [n];
    assert Stored(files, name) != "" by {
      assert Unmarshal("").Err?;
    }
    assert forall j :: 0 <= j < |added| && j != |m| ==> added[j].id != n.id;
    RemoveDeletesOne(args, files, added, |m|);
    assert added[..|m|] + added[|m| + 1..] == m;
  }
}
