# Record store: a Dafny model

This project models `main.go`, a command-line record store. A record has an id, an email and an age. The records live as a JSON array in one backing file. One invocation takes four string flags (`-operation`, `-fileName`, `-item`, `-id`) and runs one of four operations: `list`, `add`, `findById` or `remove`.

The model covers five parts:

- **Records** (`records.dfy`): the `Record` type with its 8-bit age, the argument map, Go's map lookup (a missing key reads as `""`), the error values and the flag and operation names.
- **Codec** (`codec.dfy`): a stand-in for `encoding/json` on the two shapes the store uses, one record and an array of records. The printer writes the text `json.Marshal` writes, for example `{"id":"1","email":"a@b.com","age":30}`, with Go's escapes. The parser reads that compact layout back, with a proof, and decodes every JSON string escape. Like Go's decoder, it refuses raw control characters inside strings and leading zeros in numbers. It reports every other text as malformed, including some text that Go's decoder accepts (see "## Left out").
- **Validation** (`validation.dfy`): `validateParamEntered`, `validateOpAllowed`, `validateConsequently` and the two constant tables.
- **Store** (`store.dfy`, `store_facts.dfy`): the file system as a class holding a map from path to contents, and the four handlers as methods. Each handler is proved against a function that states its result. The loops are written as loops:
  - the first-match scan shared by `add` and `find`;
  - `remove`'s `range` loop, which deletes in place on the backing array that the loop keeps reading.

  `store_facts.dfy` holds the lemmas about the handlers.
- **Cli** (`cli.dfy`): `parseArgs`'s map-building loop, and `Perform`. `Perform` validates the arguments, runs one handler, and then either returns the handler's error or writes its bytes to the writer.

Behaviour of the code that the model keeps as written:

- `find` and `remove` treat an empty or absent file as the error "No data to search for a record". `add` treats the same file as an empty collection (main.go:148-155, 197-199, 229-231).
- Every handler opens its file with `O_CREATE`, so running `list`, `find` or `remove` on an absent path leaves an empty file behind.
- `remove` decides whether it found a record by the id it copied from the deleted record (`foundId == ""`). So `remove` with an empty id never writes and reports "not found", even when one record has the empty id (two or more fall under the next point). `Perform` never passes an empty id, because validation rejects it.
- `remove` is modelled only when at most one record has the requested id. With two or more, the `range` loop reads an array that the deletion shifts under it. It can then skip a match, or index past the slice and panic.
- "Not found" in `find` is empty output with no error. A duplicate id in `add` and a missing id in `remove` are plain messages with no error.
- The `switch` in `Perform` has no default case. The model's `Dispatch` keeps that: an unknown operation runs nothing. `PerformRunsOneHandler` proves this branch cannot be reached once validation has passed.

## Model

| member | source | states |
|---|---|---|
| `Records.IndexOfId` | main.go:206-211 | the result is the position of the first record with the id: that record has the id, none before it does, and no position at all means no record has it |
| `Codec.UnmarshalMarshal` | main.go:172-181 | decoding the text written for a collection gives back exactly that collection, so what add and remove persist is what the next load reads |
| `Codec.UnmarshalMarshalRecord` | main.go:157-164 | decoding the text of one record (an `item` flag, or find's output) gives back that record |
| `Codec.MarshalInjective` | main.go:251 | two collections written as the same text are equal |
| `Codec.IntTextRoundTrip` | main.go:19 | the decimal text of an integer age, read back, gives that age and leaves the text after it |
| `Codec.EscapeRoundTrip` | main.go:173 | for every text, the escaped string literal json.Marshal writes reads back as exactly that text and leaves what follows the closing quote |
| `Codec.LeadingZeroRejected` | main.go:151 | a number of two or more digits that starts with '0' is refused, as Go's decoder refuses it |
| `Codec.RawControlRejected` | main.go:160 | after plain characters, a raw control character makes the string literal fail to parse, as it makes Go's decoder fail |
| `Codec.ParsedHasNoRawControl` | main.go:160 | whenever a string literal parses, the text it took holds no raw control character, so one at any position before the closing quote, after plain characters or escapes, makes the literal fail to parse, as in Go's decoder |
| `Validation.ParamEnteredError` | main.go:293-302 | no error exactly when every listed flag maps to a non-empty value, where an absent key counts as empty; otherwise the error is "-<param> flag has to be specified" for the first such flag in list order |
| `Validation.ValidateParamEntered` | main.go:293-302 | the loop that stops at the first empty flag returns exactly the error stated by `ParamEnteredError` |
| `Validation.OpAllowedError` | main.go:285-291 | no error exactly for `add`, `list`, `findById` and `remove`; every other name gets "Operation <op> not allowed!" |
| `Validation.ValidationAccepts` | main.go:262-283 | `ValidateConsequently` (the three checks of validateConsequently, in order) with the program's tables passes exactly when the operation is one of the four and its flags are present: fileName always, item for add, id for findById and remove |
| `Validation.ValidationChecksOperationFirst` | main.go:262-273 | a missing operation flag gives the "-operation" error, and an unknown operation gives the "not allowed" error, before any other flag is looked at |
| `Validation.ValidationChecksFlagsInOrder` | main.go:36-42 | for a known operation, a missing fileName is reported first, then a missing item (add) or id (findById, remove) |
| `Validation.ValidationShortCircuits` | main.go:262-283 | once the operation check fails, the result depends on the operation flag alone: the other flags cannot change it |
| `Store.Opened` | main.go:138 | opening with O_CREATE adds the path with empty contents when it is absent and changes no other file |
| `Store.FileSystem.OpenAndRead` | main.go:138-146 | reading gives the file's contents, or nothing for an absent file, which is then created empty |
| `Store.FileSystem.WriteFile` | main.go:176 | writing replaces that one file's contents entirely |
| `Store.ScanForId` | main.go:166-170 | the scan finds the first record with the id, or reports that no record has it |
| `Store.ShiftDown` | main.go:243 | `append(m[:ind], m[ind+1:]...)` moves the later elements down one slot inside the same array, and the last slot keeps its old value |
| `Store.RemoveInPlace` | main.go:238-245 | with at most one record carrying the id, the range loop over the shifting array deletes exactly that record and keeps the rest in order, with foundId set to the id; with none, the array and length are unchanged and foundId is empty |
| `Store.List` | main.go:111-135 | list's reply and the files afterwards are those stated by `ListResult` |
| `Store.Add` | main.go:137-182 | add's reply and the files afterwards are those stated by `AddResult` |
| `Store.Find` | main.go:184-214 | find's reply and the files afterwards are those stated by `FindResult` |
| `Store.Remove` | main.go:216-260 | remove's reply and the files afterwards are those stated by `RemoveResult`, provided at most one record has the id |
| `StoreFacts.AddRejectsDuplicate` | main.go:166-170 | when a stored record has the new record's id, the reply is "Item with id <id> already exists" and the file is not written |
| `StoreFacts.AddAppends` | main.go:172-181 | otherwise the file then holds the old collection with the new record appended at the end, the reply is exactly the written text, and no other file changes; an empty file counts as the empty collection |
| `StoreFacts.FindReturnsFirst` | main.go:206-211 | find replies with the text of the first record with the id, which decodes to that record, and writes nothing |
| `StoreFacts.FindMissIsSilent` | main.go:213 | with no matching record, find gives empty output, no error and no write |
| `StoreFacts.EmptyFileRejectedBySearches` | main.go:197-199 | on an empty or absent file, find and remove fail with "No data to search for a record" and write nothing (an absent file is created empty), while add takes the same file as the empty collection: given a decodable item it writes and replies the one-record array |
| `StoreFacts.ReadersNeverWrite` | main.go:184-214 | find and list change the files only by creating an absent file empty |
| `StoreFacts.FailuresWriteNothing` | main.go:150-164 | when add or remove fails (malformed file or item, empty file), nothing is written |
| `StoreFacts.ListPassesThrough` | main.go:111-135 | list replies with the file's bytes unchanged; on an absent file it replies nothing and leaves the file present and empty |
| `StoreFacts.RemoveDeletesOne` | main.go:240-258 | with exactly one record carrying the id, the written and replied collection is the old one without that record: one shorter, the others in their old order, no record with the id, the same records apart from the one removed, and no other file changed |
| `StoreFacts.RemoveMissingReports` | main.go:247-249 | with no record carrying the id, the reply is "Item with id <id> not found" and the files are unchanged |
| `StoreFacts.RemoveEmptyIdNeverWrites` | main.go:242-249 | because the test is `foundId == ""`, remove with an empty id, on a file where at most one record has the empty id, reports "not found" and never writes |
| `StoreFacts.AddThenFind` | main.go:172-211 | after adding a record under a new id, finding that id returns exactly that record's text |
| `StoreFacts.AddThenRemove` | main.go:240-258 | after adding a record under a new, non-empty id, removing that id is well defined and restores the collection that was stored before the add |
| `StoreFacts.RemoveLastAdded` | main.go:240-258 | on a file holding a collection whose last record alone carries the (non-empty) id, remove is well defined and writes back the collection without that last record |
| `Cli.ParseArgs` | main.go:315-322 | the map has a key for a flag exactly when its value is non-empty, maps it to that value, has no other keys, and so reads back every flag's value, the empty ones as "" |
| `Cli.Writer.Write` | main.go:70 | the writer's output grows by exactly the bytes written |
| `Cli.Perform` | main.go:44-73 | Perform returns the error, leaves the files and appends the output stated by `PerformResult`: validation first, then `Dispatch` (the `switch`, with no default case) to one handler, then the handler's error or a write of its bytes |
| `Cli.PerformRejectsInvalid` | main.go:45-49 | when the operation is unknown or a flag it needs is missing, the validation error is returned, no handler runs, the files are untouched and nothing is written |
| `Cli.PerformRunsOneHandler` | main.go:54-72 | after validation passes, exactly the handler the operation names runs; its error is returned with nothing written, or its bytes are written and no error is returned |
| `Cli.PerformNeedsFileName` | main.go:36-42 | without a file name, every invocation fails validation and touches nothing |

## Left out

- File I/O errors are not modelled. Opening, reading and writing always succeed, and file modes are not modelled. The source ignores `ioutil.ReadAll`'s error in add, find and remove (main.go:146, 193, 225).
- Go strings and `[]byte` share one type here, `string` (a sequence of characters). No UTF-8 encoding is modelled.
- `encoding/json` is a foreign library, replaced by the codec. The printer escapes as `json.Marshal` does, except for backspace and form feed. It writes those as `\u0008` and `\u000c`, the form Go used before version 1.22; later versions write `\b` and `\f`.
- The parser reads only the compact layout, with the keys `id`, `email` and `age` in that order. Go's decoder also accepts whitespace, other key orders, keys in other letter cases, missing, repeated or unknown fields, and `null`.
- On such text the model reports `MalformedJson` where the program goes on. An example is an `-item` of `{"id": "1", "email": "a@b.com", "age": 30}` with spaces: `AddResult` fails on it, while the program appends the record. The same holds for a file in that form read by add, find or remove (main.go:151, 160, 201, 233).
- Text is a sequence of characters, not bytes, so Go's replacement of invalid UTF-8 by U+FFFD is not modelled.
- StoreFacts.RemoveEmptyIdNeverWrites: stated only for files where at most one record has the empty id, because with two the source's loop indexes past the shrunken slice (main.go:243).
- `json.Marshal` of records cannot fail. So add's and remove's `errLast` is always nil, and the model drops that path.
- Store.Remove: requires that at most one record of the file has the id. With two or more, the source's `range` loop skips matches or panics (main.go:240-245), and that behaviour is not modelled.
- Cli.Perform: requires the same, but only of a `remove` invocation that passes validation, because only those reach the loop. A `remove` that fails validation, for example one without `-id`, is modelled on every file and returns its validation error.
- The `flag` package's registration and parsing are not modelled (main.go:308-313). `ParseArgs` receives the four parsed values.
- Not modelled: the debug printing (main.go:66, 318, 324), the `panic` in `main` (main.go:329-334), and the ignored result of `writer.Write`.
- An age outside the 8-bit range is rejected as malformed when decoding. Go reports an error too, but no other `int8` arithmetic is modelled.
- The commented-out code (main.go:75-109, 126-132) is not modelled.
- There is no concurrency. Two invocations on one file are not modelled.
