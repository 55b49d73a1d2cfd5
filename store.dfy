/** The four operation handlers over the backing file. Each handler opens the
    file (creating it empty when absent), reads it whole, works on the
    decoded collection in memory and, for add and remove, overwrites the file
    with the new collection. */
module Store {
  import opened Records
  import opened Codec

  type Files = map<string, string>

  /** The message add gives for a duplicate id (not an error). */
  function AlreadyExists(id: string): string {
    "Item with id " + id + " already exists"
  }

  /** The message remove gives when no record has the id (not an error). */
  function NotFound(id: string): string {
    "Item with id " + id + " not found"
  }

  /** The error find and remove give for an empty file. */
  const NoData := Fail("No data to search for a record")

  /** The files after opening `name` with O_CREATE. */
  function Opened(files: Files, name: string): (r: Files)
    ensures name in r && r[name] == Stored(files, name)
    ensures forall p :: p != name ==> (p in r <==> p in files)
    ensures forall p :: p in files ==> p in r && r[p] == files[p]
  {
    if name in files then files else files[name := ""]
  }

  /** The contents of `name`; an absent file reads as empty. */
  function Stored(files: Files, name: string): string {
    if name in files then files[name] else ""
  }

  /** The file system the handlers work on: path to contents. */
  class FileSystem {
    var files: Files

    constructor (initial: Files)
      ensures files == initial
    {
      files := initial;
    }

    /** os.OpenFile with O_CREATE followed by ioutil.ReadAll. */
    method OpenAndRead(name: string) returns (buf: string)
      modifies this
      ensures files == Opened(old(files), name)
      ensures buf == Stored(old(files), name)
    {
      if name !in files {
        files := files[name := ""];
      }
      buf := files[name];
    }

    /** ioutil.WriteFile: the file's whole contents are replaced. */
    method WriteFile(name: string, data: string)
      modifies this
      ensures files == old(files)[name := data]
    {
      files := files[name := data];
    }
  }

  // ---------------------------------------------------------------------
  // The loops

  /** The `range` loop of add and of find: the first record with the id. */
  method ScanForId(m: seq<Record>, id: string) returns (found: bool, i: nat)
    ensures found ==> i < |m| && m[i].id == id && forall j :: 0 <= j < i ==> m[j].id != id
    ensures !found ==> forall j :: 0 <= j < |m| ==> m[j].id != id
  {
    i := 0;
    while i < |m|
      invariant i <= |m|
      invariant forall j :: 0 <= j < i ==> m[j].id != id
    {
      if m[i].id == id {
        return true, i;
      }
      i := i + 1;
    }
    return false, 0;
  }

  /** `m = append(m[:ind], m[ind+1:]...)` on the slice `a[..len]`: the
      elements after `ind` move one slot down inside the same array, and the
      last slot keeps its old value. */
  method ShiftDown(a: array<Record>, ind: nat, len: nat)
    requires ind < len <= a.Length
    modifies a
    ensures forall j :: 0 <= j < ind ==> a[j] == old(a[j])
    ensures forall j :: ind <= j < len - 1 ==> a[j] == old(a[j + 1])
    ensures forall j :: len - 1 <= j < a.Length ==> a[j] == old(a[j])
  {
    var i := ind;
    while i + 1 < len
      invariant ind <= i < len
      invariant forall j :: 0 <= j < ind ==> a[j] == old(a[j])
      invariant forall j :: ind <= j < i ==> a[j] == old(a[j + 1])
      invariant forall j :: i <= j < a.Length ==> a[j] == old(a[j])
    {
      a[i] := a[i + 1];
      i := i + 1;
    }
  }

  /** The `range` loop of remove. `range` fixes the length at the start and
      reads each element from the array that the deletion shifts under it.
      With at most one record carrying the id, that loop deletes exactly the
      first match and keeps the others in order. */
  method RemoveInPlace(a: array<Record>, id: string) returns (len: nat, foundId: string)
    requires AtMostOneWithId(a[..], id)
    modifies a
    ensures IndexOfId(old(a[..]), id).None? ==>
      len == a.Length && a[..] == old(a[..]) && foundId == ""
    ensures IndexOfId(old(a[..]), id).Some? ==>
      var k := IndexOfId(old(a[..]), id).value;
      len == a.Length - 1 && a[..len] == old(a[..])[..k] + old(a[..])[k + 1..] && foundId == id
  {
    ghost var orig := a[..];
    ghost var first := IndexOfId(orig, id);
    len, foundId := a.Length, "";
    var ind := 0;
    while ind < a.Length
      invariant 0 <= ind <= a.Length
      invariant first.None? || first.value >= ind ==>
        len == a.Length && a[..] == orig && foundId == ""
      invariant first.Some? && first.value < ind ==>
        len == a.Length - 1 && foundId == id
        && (forall j :: 0 <= j < first.value ==> a[j] == orig[j])
        && (forall j :: first.value <= j < len ==> a[j] == orig[j + 1])
        && a[len] == orig[len]
    {
      var rec := a[ind];
      if first.Some? && first.value < ind {
        // the one record with the id is already gone
        if ind < len {
          assert rec == orig[ind + 1];
        }
        assert rec.id != id;
      }
      if rec.id == id {
        assert a[ind] == orig[ind];
        foundId := rec.id;
        ShiftDown(a, ind, len);
        len := len - 1;
      }
      ind := ind + 1;
    }
    if first.Some? {
      var k := first.value;
      assert a[..len] == orig[..k] + orig[k + 1..];
    }
  }

  // ---------------------------------------------------------------------
  // What each handler does, as functions of the files before it runs

  /** A handler's result and the files after it. */
  datatype Outcome = Outcome(reply: Result<string>, files: Files)

  /** list: the raw bytes of the file, created empty when absent. */
  function ListResult(args: Arguments, files: Files): Outcome {
    var name := Lookup(args, FileNameFlag);
    Outcome(Ok(Stored(files, name)), Opened(files, name))
  }

  /** add: an empty file is an empty collection; a duplicate id is refused
      with a message; otherwise the record is appended and written. */
  function AddResult(args: Arguments, files: Files): Outcome {
    var name := Lookup(args, FileNameFlag);
    var buf := Stored(files, name);
    var loaded := if |buf| == 0 then Ok([]) else Unmarshal(buf);
    if loaded.Err? then Outcome(Err(loaded.error), Opened(files, name))
    else
      var item := UnmarshalRecord(Lookup(args, ItemFlag));
      if item.Err? then Outcome(Err(item.error), Opened(files, name))
      else
        var m, n := loaded.value, item.value;
        if IndexOfId(m, n.id).Some? then
          Outcome(Ok(AlreadyExists(n.id)), Opened(files, name))
        else
          Outcome(Ok(Marshal(m + [n])), Opened(files, name)[name := Marshal(m + [n])])
  }

  /** find: an empty file is an error; otherwise the first record with the
      id, alone, or nothing at all. */
  function FindResult(args: Arguments, files: Files): Outcome {
    var name := Lookup(args, FileNameFlag);
    var buf := Stored(files, name);
    if |buf| == 0 then Outcome(Err(NoData), Opened(files, name))
    else match Unmarshal(buf)
      case Err(e) => Outcome(Err(e), files)
      case Ok(m) =>
        match IndexOfId(m, Lookup(args, IdFlag))
        case Some(i) => Outcome(Ok(MarshalRecord(m[i])), files)
        case None => Outcome(Ok(""), files)
  }

  /** The remove case the source handles: at most one record of a decodable
      file has the id. */
  predicate UniqueTarget(args: Arguments, files: Files) {
    var decoded := Unmarshal(Stored(files, Lookup(args, FileNameFlag)));
    decoded.Ok? ==> AtMostOneWithId(decoded.value, Lookup(args, IdFlag))
  }

  /** remove: an empty file is an error; the record with the id is deleted
      and the rest written, or a message says none was found. The test is
      on the id of the deleted record, so an empty id reads as not found. */
  function RemoveResult(args: Arguments, files: Files): Outcome {
    var name := Lookup(args, FileNameFlag);
    var buf := Stored(files, name);
    if |buf| == 0 then Outcome(Err(NoData), Opened(files, name))
    else match Unmarshal(buf)
      case Err(e) => Outcome(Err(e), files)
      case Ok(m) =>
        var id := Lookup(args, IdFlag);
        match IndexOfId(m, id)
        case None => Outcome(Ok(NotFound(id)), files)
        case Some(k) =>
          if id == "" then Outcome(Ok(NotFound(id)), files)
          else
            var rest := m[..k] + m[k + 1..];
            Outcome(Ok(Marshal(rest)), files[name := Marshal(rest)])
  }

  // ---------------------------------------------------------------------
  // The handlers

  method List(fs: FileSystem, args: Arguments) returns (reply: Result<string>)
    modifies fs
    ensures Outcome(reply, fs.files) == ListResult(args, old(fs.files))
  {
    var buf := fs.OpenAndRead(Lookup(args, FileNameFlag));
    return Ok(buf);
  }

  method Add(fs: FileSystem, args: Arguments) returns (reply: Result<string>)
    modifies fs
    ensures Outcome(reply, fs.files) == AddResult(args, old(fs.files))
  {
    var name := Lookup(args, FileNameFlag);
    var buf := fs.OpenAndRead(name);
    ghost var afterOpen := fs.files;
    var m: seq<Record> := [];
    if |buf| != 0 {
      var decoded := Unmarshal(buf);
      if decoded.Err? {
        return Err(decoded.error);
      }
      m := decoded.value;
    }
    assert (if |buf| == 0 then Ok([]) else Unmarshal(buf)) == Ok(m);
    var item := UnmarshalRecord(Lookup(args, ItemFlag));
    if item.Err? {
      return Err(item.error);
    }
    var n := item.value;
    var found, i := ScanForId(m, n.id);
    if found {
      assert m[i].id == n.id;
      return Ok(AlreadyExists(m[i].id));
    }
    m := m + [n];
    var marshalled := Marshal(m);
    fs.WriteFile(name, marshalled);
    assert fs.files == afterOpen[name := marshalled];
    return Ok(marshalled);
  }

  method Find(fs: FileSystem, args: Arguments) returns (reply: Result<string>)
    modifies fs
    ensures Outcome(reply, fs.files) == FindResult(args, old(fs.files))
  {
    var buf := fs.OpenAndRead(Lookup(args, FileNameFlag));
    if |buf| == 0 {
      return Err(NoData);
    }
    var decoded := Unmarshal(buf);
    if decoded.Err? {
      return Err(decoded.error);
    }
    var m := decoded.value;
    var found, i := ScanForId(m, Lookup(args, IdFlag));
    if found {
      return Ok(MarshalRecord(m[i]));
    }
    return Ok("");
  }

  method Remove(fs: FileSystem, args: Arguments) returns (reply: Result<string>)
    requires UniqueTarget(args, fs.files)
    modifies fs
    ensures Outcome(reply, fs.files) == RemoveResult(args, old(fs.files))
  {
    var name := Lookup(args, FileNameFlag);
    var buf := fs.OpenAndRead(name);
    if |buf| == 0 {
      return Err(NoData);
    }
    var decoded := Unmarshal(buf);
    if decoded.Err? {
      return Err(decoded.error);
    }
    var m := decoded.value;
    var a := new Record[|m|](i requires 0 <= i < |m| => m[i]);
    assert a[..] == m;
    var id := Lookup(args, IdFlag);
    var len, foundId := RemoveInPlace(a, id);
    if foundId == "" {
      return Ok(NotFound(id));
    }
    var marshalled := Marshal(a[..len]);
    fs.WriteFile(name, marshalled);
    return Ok(marshalled);
  }
}
