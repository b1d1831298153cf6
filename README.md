# tinyconf in Dafny

A model of the two cooperating parts of tinyconf, a Go library that binds a
configuration file to a typed record and overlays process environment
variables on it. Properties of the model are proved about it.

- **The environment overlay** (`env.go`). `applyEnvOverrides` walks a record
  depth-first, in field declaration order:
  - unexported fields are skipped;
  - struct fields are always walked;
  - a nil pointer-to-struct is allocated, then walked;
  - any other exported field that has an `env` tag naming a set variable gets
    that variable's text, converted to the field's kind by Go's `strconv`
    rules;
  - the first failure stops the walk, and earlier assignments stay.

  Reflection is replaced by an explicit record descriptor (`EnvOverlay.Field`,
  `EnvOverlay.Value`). The walk is an imperative loop over field indices
  (`ApplyEnvToStruct`, with `ApplyEnvToField` as its body), proved equal to a
  recursive specification (`OverlayField`/`OverlayFields`).
- **The `strconv` parsers** the overlay relies on (`strconv.dfy`):
  - `ParseInt` and `ParseUint`: base 10, bit size 64, with Go's syntax and
    range errors;
  - `ParseBool`: exactly Go's twelve literals.

  Integers are always parsed at 64 bits. `SetInt`/`SetUint` then truncate
  them to the field's width (two's complement for signed fields).
- **The file-backed store** (`config.go`). `TinyConf` is a class holding:
  - the resolved file path;
  - a codec: its format, which fixes the default file name, plus abstract
    `encode`/`decode` functions;
  - the exit function and exit code;
  - a ghost log of exit invocations.

  The file system is a `FileSystem` object: a map from paths to bytes, plus a
  fixed set of (operation, path) pairs on which the operating system reports
  an error other than "does not exist". Every `TinyConf` operation changes
  the file system in the order `config.go` does. Each is proved equal to an
  `...Effect` function of the old state, and the lemmas in
  `store_properties.dfy` are about those functions.

Modules:

| module | file |
|---|---|
| `Wrappers` | `wrappers.dfy` |
| `Strconv` | `strconv.dfy` |
| `EnvOverlay` | `env_overlay.dfy` |
| `EnvProperties` | `env_properties.dfy` |
| `Store` | `store.dfy` |
| `StoreProperties` | `store_properties.dfy` |

Three behaviours of the code that a reader might not expect:
- **`Save` does not truncate.** It reopens an existing file with `os.O_RDWR`
  and no truncation (config.go:106). The new encoding overwrites the file from
  offset 0, and a longer old tail remains (`Store.Overwrite`,
  `StoreProperties.SaveKeepsStaleTail`). The file holds exactly the new
  encoding only when that encoding is at least as long as the old file
  (`StoreProperties.SaveLongerReplaces`).
- **`createFile` is not an exclusive create.** It uses `os.Create`, which
  truncates an existing file rather than failing on it (config.go:127).
- **`Exists` counts stat errors as existing.** Any stat error other than
  "does not exist" counts as the file existing (config.go:67).

## Model

| member | source | states |
|---|---|---|
| Strconv.ScanDigits | env.go:94 | A successful scan never returns less than the value read so far, and never more than 2^64-1 once a digit has been read (characterised fully by `ScanDigitsCorrect`) |
| Strconv.ParseUint | env.go:94-98 | A parsed unsigned value is at most 2^64-1; the empty string and a string not starting with a digit are syntax errors (signs included); characterised fully by `ParseUintCorrect` |
| Strconv.Magnitude | env.go:88 | The text `ParseInt` hands to `ParseUint` is a suffix of the input: the input without its leading sign |
| Strconv.ParseInt | env.go:88-92 | A parsed signed value always lies in the int64 range |
| Strconv.ParseBool | env.go:106-110 | Succeeds exactly on the six true and six false literals; true exactly for the true literals; otherwise a syntax error |
| Strconv.ScanDigitsCorrect | env.go:94 | The digit loop succeeds exactly on all-digit strings of value at most 2^64-1, returns that value, and reports a range error exactly when some all-digit prefix already overflows |
| Strconv.ParseUintCorrect | env.go:94-98 | `ParseUint` succeeds exactly on non-empty digit strings whose value fits in 64 bits, returns that value, and gives a range error exactly when an all-digit prefix overflows, otherwise a syntax error |
| Strconv.ParseIntCorrect | env.go:88-92 | `ParseInt` succeeds exactly on optionally signed digit strings whose value lies in the int64 range, and returns that value; it reports a range error exactly when an all-digit prefix of the unsigned part overflows 64 bits or the signed value lies outside the int64 range, and a syntax error otherwise |
| Strconv.ParseIntRange | env.go:88-91 | Every all-digit input above the int64 maximum is a range error, whether or not it also exceeds 2^64-1 |
| Strconv.ParseUintFormat | env.go:94-98 | Parsing the decimal form of any unsigned 64-bit value gives it back |
| Strconv.ParseIntFormat | env.go:88-92 | Parsing the decimal form of any signed 64-bit value gives it back |
| Strconv.ParseBoolFormat | env.go:106-110 | Parsing "true"/"false" gives the boolean back |
| EnvOverlay.TruncSigned | env.go:92 | `SetInt` keeps a value that fits the field's width, and always yields a value that fits and is congruent modulo 2^width |
| EnvOverlay.TruncUnsigned | env.go:98 | `SetUint` keeps a value that fits the field's width, and always yields a value that fits and is congruent modulo 2^width |
| EnvOverlay.SetFieldValue | env.go:83-115 | A successful conversion keeps the field's kind; the error is "unsupported" exactly for struct, pointer and other kinds; strings are assigned verbatim; integer and bool fields succeed exactly when `ParseInt`/`ParseUint`/`ParseBool` do; a bool field stores true exactly for the six true literals and false for the six false ones |
| EnvOverlay.OverlayField | env.go:35-77 | Walking one field keeps its name, export status and tag; its meaning is characterised by `EnvProperties.InertFieldsUnchanged`, `TaggedFieldsConverted`, `NilPointerAllocated`, `OverlayFieldIdempotent` and `OverlayFieldCulprit` |
| EnvOverlay.OverlayFields | env.go:31-81 | Walking a record keeps its number of fields; its walk order and stop-at-first-failure are characterised by `EnvOverlay.OverlayFieldsAppend` and `EnvProperties.OverlayFieldsPointwise` |
| EnvOverlay.EnvOverrides | env.go:17-29 | A struct pointer stays a struct pointer with the same number of fields; anything else is returned unchanged with an error (the exact error in `EnvProperties.EnvOverridesRejects`) |
| EnvOverlay.OverlayFieldsAppend | env.go:34-80 | Walking `ps + qs` walks `ps`, then `qs` only if `ps` succeeded; a failure in `ps` leaves `qs` untouched |
| EnvOverlay.OverlayFieldsStep | env.go:34-78 | One loop iteration extends the walked prefix by one field's result, and a failure at field `i` is the result of the whole walk |
| EnvOverlay.ApplyEnvToStruct | env.go:31-81 | The in-place loop over field indices produces exactly the specified walk: its updated fields and first error |
| EnvOverlay.ApplyEnvToField | env.go:35-77 | One field's handling (skip, recurse, allocate and recurse, or convert and assign) is exactly the specified one-field walk |
| EnvOverlay.ApplyEnvOverrides | env.go:17-29 | Equals the specified overlay; a non-pointer or nil pointer gives "must be a non-nil pointer", a pointer to a non-struct gives "must be a pointer to a struct", and the argument is then unchanged |
| EnvOverlay.LoadFromEnv | env.go:12-14 | Is the overlay alone, with no file involved |
| EnvProperties.OverlayFieldsPointwise | env.go:34-80 | Field by field: on success every field holds its own one-field walk; on failure there is an index such that earlier fields hold their walks, that field holds its partial walk and carries the error, and later fields are untouched |
| EnvProperties.InertFieldsUnchanged | env.go:39-72 | Unexported fields, untagged scalars and scalars whose variable is unset keep their values, even when the walk fails |
| EnvProperties.TaggedFieldsConverted | env.go:62-77 | After a successful walk, every exported, tagged scalar whose variable is set holds the conversion of that variable's text |
| EnvProperties.OverlayFieldShape | env.go:35-77 | Walking one field keeps its name, export status, tag and kind |
| EnvProperties.OverlayFieldsShape | env.go:34-80 | The walk never adds, removes or renames fields, nor changes their kind |
| EnvProperties.StructTagIgnored | env.go:44-60 | A struct or pointer-to-struct field is walked the same whatever its `env` tag |
| EnvProperties.OverlayFieldAllocates | env.go:52-60 | After a successful walk of a field, no exported pointer-to-struct reachable from it is nil |
| EnvProperties.OverlayFieldsAllocate | env.go:52-60 | After a successful walk of a record, no exported pointer-to-struct reachable through exported fields is nil |
| EnvProperties.NilPointerAllocated | env.go:52-57 | A nil pointer-to-struct is replaced by its zero value, which is then walked, even when no variable is set |
| EnvProperties.SetFieldValueByKind | env.go:83-115 | A conversion depends only on the field's kind, never on its current value |
| EnvProperties.OverlayFieldIdempotent | env.go:35-77 | With a fixed environment, walking a field twice gives the same field and error as walking it once |
| EnvProperties.OverlayFieldsIdempotent | env.go:31-81 | With a fixed environment, walking a record twice gives the same record and error as walking it once |
| EnvProperties.EnvOverridesIdempotent | env.go:17-29 | With a fixed environment, applying the overlay twice gives the same result as applying it once, for every argument |
| EnvProperties.EnvOverridesRejects | env.go:18-26 | Anything but a non-nil pointer to a struct is an error and is left as it is |
| EnvProperties.OverlayFieldCulprit | env.go:35-77 | A failed field walk reaches a tagged scalar with its variable set whose conversion failed; the error names that field and that variable |
| EnvProperties.OverlayFieldsCulprit | env.go:34-80 | A failed walk's error names a reachable tagged scalar, its variable, and the conversion error of that variable's text |
| EnvProperties.SetIntTruncates | env.go:87-92 | A signed field of any width accepts exactly what `ParseInt` accepts at 64 bits, and stores the value truncated to the field's width |
| EnvProperties.SetUintTruncates | env.go:93-98 | An unsigned field of any width accepts exactly what `ParseUint` accepts at 64 bits, and stores its low bits |
| EnvProperties.SetFieldValueFormatted | env.go:83-115 | Formatting a string, integer or bool value that fits its field, then setting the field from that text, gives the value back |
| EnvProperties.Int8FromThreeHundred | env.go:87-92 | "300" set into an 8-bit signed field stores 44 |
| EnvProperties.UintRejectsSign | env.go:93-98 | "+1" and "-1" are syntax errors for an unsigned field |
| EnvProperties.PortScenario | env.go:62-77 | With APP_PORT set to "8080" the tagged port field becomes 8080; with it unset the field keeps 3000 |
| Store.DefaultFileName | file_processor/json.go:13-15 | Every processor's default name is `config.` followed by an extension (`config.json`, `config.xml`, `config.yaml`, `config.toml`, `config.msgpack`) |
| Store.DefaultFileNamesDistinct | file_processor/json.go:13-15 | Different processors have different default names |
| Store.Present | config.go:65-68 | The file counts as existing exactly when it is present or stat fails with an error other than "does not exist" |
| Store.OsResult | config.go:66-127 | An os call succeeds exactly when no fault is configured for it and either the file exists or the call is `MkdirAll` or `Create` |
| Store.Overwrite | config.go:106-112 | Writing from offset 0 without truncation: the new bytes come first, the length is the larger of the two, and any longer old tail remains |
| Store.WriteEffect | config.go:15 | The codec's write succeeds exactly when encoding does; it then overwrites the file's start; on failure the files are unchanged; other paths are untouched |
| Store.CreateFileEffect | config.go:121-134 | Succeeds exactly when directory creation, file creation and encoding all succeed, and the file then holds the encoding; a failed encoding leaves a new empty file; a failed directory or file creation changes nothing; other paths are untouched |
| Store.LoadEffect | config.go:87-98 | Touches no other path, and writes nothing when the file already exists |
| Store.SaveEffect | config.go:101-113 | Touches no other path |
| Store.DeleteEffect | config.go:116-118 | Succeeds exactly when the file exists and removal is not refused; then the path is removed, otherwise nothing changes |
| Store.LoadWithEnvEffect | config.go:139-145 | Leaves the files as `Load` does |
| Store.FileSystem.StatFile | config.go:66 | `os.Stat` reports the configured fault, else "does not exist" when the file is absent |
| Store.FileSystem.OpenFile | config.go:88 | `os.Open` fails like `os.Stat`, and otherwise yields the file's contents |
| Store.FileSystem.OpenReadWriteFile | config.go:106 | `os.OpenFile` with `O_RDWR` creates nothing and fails like `os.Open` |
| Store.FileSystem.MkdirAllFor | config.go:122-123 | Directory creation fails only by a configured fault |
| Store.FileSystem.CreateFile | config.go:127 | `os.Create` fails only by a configured fault, and otherwise leaves the file empty, truncating an existing one |
| Store.FileSystem.WriteFromStart | config.go:112 | Writing through a handle at offset 0 overwrites the file's start without truncation |
| Store.FileSystem.RemoveFile | config.go:117 | `os.Remove` fails by a configured fault or on an absent file, and otherwise removes the path |
| Store.TinyConf.NewTinyConfWithFp | config.go:37-48 | The path is the first file name given, else the codec's default name; the exit function is `os.Exit` and the exit code 0 |
| Store.TinyConf.NewTinyConf | config.go:31-33 | The same, with the JSON codec: the default path is `config.json` |
| Store.TinyConf.SetExitFunc | config.go:51-55 | Replaces the exit function only, and returns the same instance |
| Store.TinyConf.SetExitCode | config.go:58-62 | Replaces the exit code only, and returns the same instance |
| Store.TinyConf.Exists | config.go:65-68 | False exactly when stat reports "does not exist": true when the file is present or stat fails for any other reason |
| Store.TinyConf.Write | config.go:15 | Writes through the codec exactly as `WriteEffect` specifies |
| Store.TinyConf.CreateFile | config.go:121-134 | Its steps produce exactly `CreateFileEffect` |
| Store.TinyConf.Load | config.go:87-98 | Its steps produce exactly `LoadEffect`: the record afterwards, the new files, the error |
| Store.TinyConf.Save | config.go:101-113 | Its steps produce exactly `SaveEffect` |
| Store.TinyConf.Delete | config.go:116-118 | Its steps produce exactly `DeleteEffect` |
| Store.TinyConf.LoadOrExit | config.go:71-84 | Loads exactly as `Load`; the exit function is invoked once, with the current exit code, exactly when the file did not exist before the call and the load succeeded, and otherwise not at all |
| Store.TinyConf.LoadWithEnv | config.go:139-145 | Its steps produce exactly `LoadWithEnvEffect` |
| Store.TinyConf.LoadOrExitWithEnv | config.go:149-162 | Loads with the overlay as `LoadWithEnv` does; existence is sampled before loading, and the exit function is invoked once exactly when the file did not exist and both the load and the overlay succeeded |
| StoreProperties.LoadCreatesMissingFile | config.go:87-98 | On a missing file, `Load` creates it holding the encoded record, leaves the record unchanged, and succeeds |
| StoreProperties.LoadMissingEncodeFails | config.go:121-134 | On a missing file whose record cannot be encoded, the file is still created, empty, and the codec error is returned |
| StoreProperties.LoadDecodesPresentFile | config.go:88-97 | A file that opens is decoded into the record, nothing is written, and the load fails exactly when decoding does |
| StoreProperties.LoadOtherOpenError | config.go:88-95 | An open error other than "does not exist" is returned unchanged; nothing is created and the record is untouched |
| StoreProperties.LoadKeepsRecordUnlessDecoding | config.go:87-98 | The record changes only when a file was opened and decoded |
| StoreProperties.LoadSuccessMeansPresent | config.go:87-98 | After a successful `Load`, `Exists` is true |
| StoreProperties.SaveMissingIsCreate | config.go:101-104 | On a file that does not exist, `Save` is exactly `createFile` |
| StoreProperties.SaveOverwrites | config.go:106-112 | On an existing file, `Save` writes the encoding over its start without truncating |
| StoreProperties.SaveKeepsStaleTail | config.go:106-112 | An encoding shorter than the file leaves the old tail after it, so the file is not the encoding |
| StoreProperties.SaveLongerReplaces | config.go:101-113 | When the encoding is at least as long as any existing file, `Save` succeeds and the file holds exactly the encoding |
| StoreProperties.OverwriteIdempotent | config.go:106-112 | Writing the same bytes twice from offset 0 leaves what writing them once left |
| StoreProperties.SaveIdempotent | config.go:101-113 | Saving the same record again after a successful save changes nothing |
| StoreProperties.SaveSuccessMeansPresent | config.go:101-113 | After a successful `Save`, `Exists` is true |
| StoreProperties.SaveThenLoad | config.go:101-113 | For a codec satisfying `RoundTrips`, `Save` and then `Load` into a struct record gives the saved record, when the write reaches the end of the file |
| StoreProperties.LoadTwice | config.go:87-98 | A first `Load` on a missing file persists the defaults unchanged; for a codec satisfying `RoundTrips`, a second `Load` into a struct record gives them back and writes nothing |
| StoreProperties.DeleteRemoves | config.go:116-118 | A successful `Delete` removes exactly the path; `Exists` is then false unless stat itself fails |
| StoreProperties.DeleteMissing | config.go:116-118 | Deleting an absent file is a "does not exist" error and changes nothing |
| StoreProperties.SaveThenDelete | config.go:101-118 | On a healthy path, `Save` then `Delete` succeeds and leaves every other file as it was |
| StoreProperties.LoadWithEnvStopsOnLoadError | config.go:139-142 | A failed `Load` is returned as it is, and the overlay never runs |
| StoreProperties.LoadWithEnvOverlaysLoaded | config.go:139-145 | After a successful `Load`, the record is the overlay of what was loaded, the files are as `Load` left them, and the overlay's error is the result |
| StoreProperties.LoadWithEnvPersistsDefaults | config.go:139-145 | On a first run the new file holds the record as it was before the overlay; environment values reach the record but are not persisted |
| StoreProperties.ProcessorLifeCycle | config_test.go:93-149 | The test's sequence: not existing, load keeps defaults, exists, save, load into a cleared record gives the update, delete, no longer existing; the files end as they began |
| StoreProperties.LoadOrExitFirstRun | config_test.go:36-56 | `LoadOrExit` on a missing `test.json` with an injected exit function and code creates the file and invokes the function once with that code |

## Left out

- The concrete codecs (`file_processor/*.go`) are not modelled. A codec is an abstract pair of functions: `encode` is all-or-nothing and `decode` may leave a partly decoded record beside its error. The round trip the store relies on is the predicate `StoreProperties.RoundTrips`, required as a hypothesis, because the encoders are external libraries.
- StoreProperties.SaveThenLoad, StoreProperties.LoadTwice and StoreProperties.ProcessorLifeCycle rest on `RoundTrips`, which is stronger than real codecs give: it asks that decoding an encoding into any struct record reproduces the encoded record exactly, whereas `encoding/json` leaves fields it does not encode (unexported, `json:"-"`, omitted empty values) at the values the target record already had. For real codecs these lemmas hold for records all of whose fields the codec encodes.
- `WithIndent` is not modelled: it changes only the bytes a codec produces, and the codec is abstract.
- Real file-system calls are replaced by the path-to-bytes map and the fixed fault set. Directories, permission modes, file handles and `Close` are not modelled. `MkdirAll` either fails by a fault or has no visible effect. A failing `MkdirAll` is reported as `PathError(MkdirAll, path, …)` with the file's path, whereas Go's error names the directory `filepath.Dir(path)` (config.go:122-123); directories are not part of this model.
- Partial writes and read or write failures in the middle of an I/O call are not modelled: the os layer is reliable except for the configured faults.
- `log.Println` (config.go:79, config.go:157) is not modelled, because it is output only.
- The real `os.Exit` is not modelled: it ends the process. The model records each exit invocation in the ghost log `exits`, and the method then returns as it would after an injected exit function.
- `SetExitFunc` takes an `ExitAction` token instead of a Go function value: the model does not call the function, it only records that it was invoked.
- `strconv.ParseFloat` and `SetFloat` (env.go:99-104) are not modelled, because they are floating-point numerics. Float parsing is the parameter `pf`, and a float32 field is not rounded: it keeps the 64-bit pattern `pf` returns.
- Go's `int` and `uint` kinds are modelled at 64 bits, their width on 64-bit platforms; 32-bit platforms are not modelled.
- Error messages (`fmt.Errorf` texts, `%w` wrapping) are constructors carrying the field name, the variable name and the cause, not strings.
- Aliasing is not modelled: the record descriptor is a value, so two pointer fields that share one struct in Go are two independent copies here.
- Self-referential pointer-to-struct types are not modelled. On such a type, for example `type Node struct { Next *Node }` with `Next` nil, env.go:52-57 allocates `Next`, walks it, finds its nil `Next`, allocates again, and never stops, so the Go walk overflows the stack. A record descriptor here is finite (a nil pointer carries a finite zero value), which is what lets the walk terminate; that non-terminating behaviour of the source is therefore outside this model.
- Reflection itself is replaced by the field descriptor; embedded struct fields are ordinary struct fields.
- The programs under `examples/` are demo drivers and are not part of this model.
- Concurrency is not modelled, because the library has none.
