/**
  The file-backed store of config.go. The file system is a map from paths
  to contents together with a fixed set of (operation, path) pairs on which
  the operating system reports an error other than "does not exist"
  (permission denied, a read-only file, a failing directory creation, ...).
  A codec is abstract: its format (which fixes its default file name), what
  its `Write` puts in a file and what its `Read` makes of a file's bytes.

  Each operation of `TinyConf` is a method that changes the file system step
  by step, as config.go does, and is proved equal to a pure `...Effect`
  function of the old state; the properties are lemmas about those
  functions (store_properties.dfy).
*/
module Store {
  import opened Wrappers
  import opened EnvOverlay

  newtype byte = b: int | 0 <= b < 256

  /** The formats of file_processor/. */
  datatype Format = Json | Xml | Yaml | Toml | MsgPack

  /** `DefaultFileName()` of each file processor: `config.` followed by the format's extension. */
  function DefaultFileName(f: Format): (name: string)
    ensures |name| > 7 && name[..7] == "config."
  {
    match f
    case Json => "config.json"
    case Xml => "config.xml"
    case Yaml => "config.yaml"
    case Toml => "config.toml"
    case MsgPack => "config.msgpack"
  }

  /** What a codec's `Read` leaves in the record (possibly partly decoded) and its error, if any. */
  datatype Decoded = Decoded(config: Config, err: Option<string>)

  /** A `FileProcessor`: `Write` as `encode`, `Read` as `decode` into the current record. */
  datatype Codec = Codec(
    format: Format,
    encode: Config -> Result<seq<byte>, string>,
    decode: (seq<byte>, Config) -> Decoded)

  /** The calls into package os that config.go makes. */
  datatype Op = Stat | Open | OpenReadWrite | MkdirAll | Create | Remove

  /** An os error: `os.IsNotExist` holds of it, or it is some other error. */
  datatype Cause = NotExist | OtherError

  datatype Error =
    | PathError(op: Op, path: string, cause: Cause)   // an *os.PathError, returned unchanged
    | CodecError(detail: string)                     // from the codec, returned unchanged
    | EnvFailure(envErr: EnvError)                   // from applyEnvOverrides

  type Files = map<string, seq<byte>>
  type Faults = set<(Op, string)>

  /**
    The error of an os call on `path`: the configured fault if there is one,
    else "does not exist" for a call that needs the file when it is absent.
    `MkdirAll` and `Create` do not need the file.
  */
  function OsResult(files: Files, faults: Faults, op: Op, path: string): (r: Option<Cause>)
    ensures r.None? <==> (op, path) !in faults && (path in files || op == MkdirAll || op == Create)
  {
    if (op, path) in faults then Some(OtherError)
    else if op != MkdirAll && op != Create && path !in files then Some(NotExist)
    else None
  }

  /** `Exists`: false only when stat says "does not exist". */
  predicate Present(files: Files, faults: Faults, path: string): (present: bool)
    ensures present <==> path in files || (Stat, path) in faults
  {
    OsResult(files, faults, Stat, path) != Some(NotExist)
  }

  /** Different processors never share a default file name. */
  lemma DefaultFileNamesDistinct(f: Format, g: Format)
    requires f != g
    ensures DefaultFileName(f) != DefaultFileName(g)
  {
  }

  /**
    Writing `data` from offset 0 into a file opened without truncation:
    the new bytes replace the first `|data|` bytes and any longer tail of
    the old contents remains.
  */
  function Overwrite(prev: seq<byte>, data: seq<byte>): (r: seq<byte>)
    ensures |r| == if |data| < |prev| then |prev| else |data|
    ensures r[..|data|] == data
    ensures r[|data|..] == if |data| < |prev| then prev[|data|..] else []
  {
    if |data| < |prev| then data + prev[|data|..] else data
  }

  /** The effect of a call on the file system: the new files and the error returned. */
  datatype FileEffect = FileEffect(files: Files, err: Option<Error>)

  /** The effect of a call that also writes the record: the record afterwards, the new files, the error. */
  datatype Effect = Effect(config: Config, files: Files, err: Option<Error>)

  /** `fileProcessor.Write(file, config)` on a file open at offset 0. */
  function WriteEffect(c: Codec, path: string, files: Files, config: Config): (r: FileEffect)
    requires path in files
    ensures r.files - {path} == files - {path} && path in r.files
    ensures r.err.None? <==> c.encode(config).Success?
    ensures r.err.None? ==> r.files[path] == Overwrite(files[path], c.encode(config).value)
    ensures r.err.Some? ==> r.files == files
  {
    match c.encode(config)
    case Success(data) => FileEffect(files[path := Overwrite(files[path], data)], None)
    case Failure(detail) => FileEffect(files, Some(CodecError(detail)))
  }

  /**
    `createFile`: create the parent directories, create (or truncate) the
    file, then write the encoding into it. A failed encoding leaves the new
    file empty.
  */
  function CreateFileEffect(c: Codec, path: string, files: Files, faults: Faults, config: Config): (r: FileEffect)
    ensures r.files - {path} == files - {path}
    ensures r.err.None? <==>
      (MkdirAll, path) !in faults && (Create, path) !in faults && c.encode(config).Success?
    ensures r.err.None? ==> path in r.files && r.files[path] == c.encode(config).value
    ensures (MkdirAll, path) !in faults && (Create, path) !in faults ==>
      path in r.files && (c.encode(config).Failure? ==> r.files[path] == [])
    ensures (MkdirAll, path) in faults || (Create, path) in faults ==> r.files == files
  {
    if (MkdirAll, path) in faults then FileEffect(files, Some(PathError(MkdirAll, path, OtherError)))
    else if (Create, path) in faults then FileEffect(files, Some(PathError(Create, path, OtherError)))
    else WriteEffect(c, path, files[path := []], config)
  }

  /**
    `Load`: open the file; when it does not exist, create it from the
    record, which is left as it was; when it opens, decode it into the
    record; any other open error is returned and nothing is created.
  */
  function LoadEffect(c: Codec, path: string, files: Files, faults: Faults, config: Config): (r: Effect)
    ensures r.files - {path} == files - {path}
    ensures path in files ==> r.files == files
  {
    match OsResult(files, faults, Open, path)
    case Some(NotExist) =>
      var w := CreateFileEffect(c, path, files, faults, config);
      Effect(config, w.files, w.err)
    case Some(OtherError) => Effect(config, files, Some(PathError(Open, path, OtherError)))
    case None =>
      var d := c.decode(files[path], config);
      Effect(d.config, files, if d.err.Some? then Some(CodecError(d.err.value)) else None)
  }

  /**
    `Save`: when the file does not exist, exactly `createFile`; otherwise
    open it read-write without truncation and write the encoding from
    offset 0.
  */
  function SaveEffect(c: Codec, path: string, files: Files, faults: Faults, config: Config): (r: FileEffect)
    ensures r.files - {path} == files - {path}
  {
    if !Present(files, faults, path) then CreateFileEffect(c, path, files, faults, config)
    else match OsResult(files, faults, OpenReadWrite, path)
      case Some(cause) => FileEffect(files, Some(PathError(OpenReadWrite, path, cause)))
      case None => WriteEffect(c, path, files, config)
  }

  /** `Delete`: `os.Remove` of the path. */
  function DeleteEffect(path: string, files: Files, faults: Faults): (r: FileEffect)
    ensures r.err.None? <==> path in files && (Remove, path) !in faults
    ensures r.files == if r.err.None? then files - {path} else files
  {
    match OsResult(files, faults, Remove, path)
    case Some(cause) => FileEffect(files, Some(PathError(Remove, path, cause)))
    case None => FileEffect(files - {path}, None)
  }

  /** `LoadWithEnv`: `Load`, then, only when it succeeded, the environment overlay. */
  function LoadWithEnvEffect(c: Codec, path: string, files: Files, faults: Faults, config: Config,
                             env: Env, pf: FloatParser): (r: Effect)
    ensures r.files == LoadEffect(c, path, files, faults, config).files
  {
    var l := LoadEffect(c, path, files, faults, config);
    if l.err.Some? then l
    else
      var o := EnvOverrides(l.config, env, pf);
      Effect(o.value, l.files, if o.err.Some? then Some(EnvFailure(o.err.value)) else None)
  }

  /** The file system the store works on. `faults` never changes. */
  class FileSystem {
    var files: Files
    const faults: Faults

    constructor (files: Files, faults: Faults)
      ensures this.files == files && this.faults == faults
    {
      this.files := files;
      this.faults := faults;
    }

    /** `os.Stat`. */
    method StatFile(path: string) returns (err: Option<Cause>)
      ensures err == OsResult(files, faults, Stat, path)
    {
      err := OsResult(files, faults, Stat, path);
    }

    /** `os.Open`: the contents when it succeeds. */
    method OpenFile(path: string) returns (data: seq<byte>, err: Option<Cause>)
      ensures err == OsResult(files, faults, Open, path)
      ensures err.None? ==> path in files && data == files[path]
    {
      err := OsResult(files, faults, Open, path);
      data := if err.None? then files[path] else [];
    }

    /** `os.OpenFile(path, os.O_RDWR, 0644)`: no creation, no truncation. */
    method OpenReadWriteFile(path: string) returns (err: Option<Cause>)
      ensures err == OsResult(files, faults, OpenReadWrite, path)
    {
      err := OsResult(files, faults, OpenReadWrite, path);
    }

    /** `os.MkdirAll(filepath.Dir(path), 0755)`. */
    method MkdirAllFor(path: string) returns (err: Option<Cause>)
      ensures err == OsResult(files, faults, MkdirAll, path)
    {
      err := OsResult(files, faults, MkdirAll, path);
    }

    /** `os.Create`: a new empty file, or an existing one truncated. */
    method CreateFile(path: string) returns (err: Option<Cause>)
      modifies this
      ensures err == OsResult(old(files), faults, Create, path)
      ensures files == if err.None? then old(files)[path := []] else old(files)
    {
      err := OsResult(files, faults, Create, path);
      if err.None? {
        files := files[path := []];
      }
    }

    /** Writing `data` through a handle positioned at offset 0. */
    method WriteFromStart(path: string, data: seq<byte>)
      requires path in files
      modifies this
      ensures files == old(files)[path := Overwrite(old(files)[path], data)]
    {
      files := files[path := Overwrite(files[path], data)];
    }

    /** `os.Remove`. */
    method RemoveFile(path: string) returns (err: Option<Cause>)
      modifies this
      ensures err == OsResult(old(files), faults, Remove, path)
      ensures files == if err.None? then old(files) - {path} else old(files)
    {
      err := OsResult(files, faults, Remove, path);
      if err.None? {
        files := files - {path};
      }
    }
  }

  /** Which exit function is installed: `os.Exit`, or one the caller injected. */
  datatype ExitAction = ProcessExit | Injected(id: nat)

  /** One invocation of the exit function. */
  datatype ExitCall = ExitCall(action: ExitAction, code: int)

  class TinyConf {
    const filePath: string
    const codec: Codec
    var exitFunc: ExitAction
    var exitCode: int
    /** Every invocation of the exit function so far. */
    ghost var exits: seq<ExitCall>

    /** `NewTinyConfWithFp`: the first file name given, else the codec's default name; exit code 0. */
    constructor NewTinyConfWithFp(fp: Codec, fileName: seq<string>)
      ensures filePath == if |fileName| > 0 then fileName[0] else DefaultFileName(fp.format)
      ensures codec == fp && exitFunc == ProcessExit && exitCode == 0 && exits == []
    {
      var name := DefaultFileName(fp.format);
      if |fileName| > 0 {
        name := fileName[0];
      }
      filePath, codec := name, fp;
      exitFunc, exitCode := ProcessExit, 0;
      exits := [];
    }

    /** `NewTinyConf`: `NewTinyConfWithFp` with the JSON file processor. */
    constructor NewTinyConf(json: Codec, fileName: seq<string>)
      requires json.format == Json
      ensures filePath == if |fileName| > 0 then fileName[0] else "config.json"
      ensures codec == json && exitFunc == ProcessExit && exitCode == 0 && exits == []
    {
      var name := DefaultFileName(json.format);
      if |fileName| > 0 {
        name := fileName[0];
      }
      filePath, codec := name, json;
      exitFunc, exitCode := ProcessExit, 0;
      exits := [];
    }

    /** `SetExitFunc`: replaces the exit function only and returns the same instance. */
    method SetExitFunc(ef: ExitAction) returns (self: TinyConf)
      modifies this`exitFunc
      ensures self == this && exitFunc == ef
      ensures exitCode == old(exitCode) && exits == old(exits)
    {
      exitFunc := ef;
      self := this;
    }

    /** `SetExitCode`: replaces the exit code only and returns the same instance. */
    method SetExitCode(code: int) returns (self: TinyConf)
      modifies this`exitCode
      ensures self == this && exitCode == code
      ensures exitFunc == old(exitFunc) && exits == old(exits)
    {
      exitCode := code;
      self := this;
    }

    /** `Exists`: success, or any stat error but "does not exist", counts as existing. */
    method Exists(fs: FileSystem) returns (e: bool)
      ensures e <==> filePath in fs.files || (Stat, filePath) in fs.faults
      ensures e == Present(fs.files, fs.faults, filePath)
    {
      var err := fs.StatFile(filePath);
      e := err.None? || err.value != NotExist;
    }

    /** `fileProcessor.Write(file, config)` into the file, open at offset 0. */
    method Write(fs: FileSystem, config: Config) returns (err: Option<Error>)
      requires filePath in fs.files
      modifies fs
      ensures FileEffect(fs.files, err) == WriteEffect(codec, filePath, old(fs.files), config)
    {
      match codec.encode(config)
      case Success(data) =>
        fs.WriteFromStart(filePath, data);
        err := None;
      case Failure(detail) =>
        err := Some(CodecError(detail));
    }

    /** `createFile`. */
    method CreateFile(fs: FileSystem, config: Config) returns (err: Option<Error>)
      modifies fs
      ensures FileEffect(fs.files, err) == CreateFileEffect(codec, filePath, old(fs.files), fs.faults, config)
    {
      var e := fs.MkdirAllFor(filePath);
      if e.Some? {
        return Some(PathError(MkdirAll, filePath, e.value));
      }
      e := fs.CreateFile(filePath);
      if e.Some? {
        return Some(PathError(Create, filePath, e.value));
      }
      err := Write(fs, config);
    }

    /** `Load`. */
    method Load(fs: FileSystem, config: Config) returns (config': Config, err: Option<Error>)
      modifies fs
      ensures Effect(config', fs.files, err) == LoadEffect(codec, filePath, old(fs.files), fs.faults, config)
    {
      var data, e := fs.OpenFile(filePath);
      if e.Some? {
        config' := config;
        if e.value == NotExist {
          err := CreateFile(fs, config);
          return;
        }
        err := Some(PathError(Open, filePath, e.value));
        return;
      }
      var d := codec.decode(data, config);
      config' := d.config;
      err := if d.err.Some? then Some(CodecError(d.err.value)) else None;
    }

    /** `Save`. */
    method Save(fs: FileSystem, config: Config) returns (err: Option<Error>)
      modifies fs
      ensures FileEffect(fs.files, err) == SaveEffect(codec, filePath, old(fs.files), fs.faults, config)
    {
      var existed := Exists(fs);
      if !existed {
        err := CreateFile(fs, config);
        return;
      }
      var e := fs.OpenReadWriteFile(filePath);
      if e.Some? {
        return Some(PathError(OpenReadWrite, filePath, e.value));
      }
      err := Write(fs, config);
    }

    /** `Delete`. */
    method Delete(fs: FileSystem) returns (err: Option<Error>)
      modifies fs
      ensures FileEffect(fs.files, err) == DeleteEffect(filePath, old(fs.files), fs.faults)
    {
      var e := fs.RemoveFile(filePath);
      err := if e.Some? then Some(PathError(Remove, filePath, e.value)) else None;
    }

    /**
      `LoadOrExit`: `Load`; its error is returned without exiting; on
      success, the exit function is invoked once with the exit code exactly
      when the file did not exist before the call.
    */
    method LoadOrExit(fs: FileSystem, config: Config) returns (config': Config, err: Option<Error>)
      modifies fs, this`exits
      ensures Effect(config', fs.files, err) == LoadEffect(codec, filePath, old(fs.files), fs.faults, config)
      ensures exits == old(exits) +
        if !Present(old(fs.files), fs.faults, filePath) && err.None? then [ExitCall(exitFunc, exitCode)] else []
    {
      var existed := Exists(fs);
      config', err := Load(fs, config);
      if err.Some? {
        return;
      }
      if !existed {
        exits := exits + [ExitCall(exitFunc, exitCode)];
      }
    }

    /** `LoadWithEnv`. */
    method LoadWithEnv(fs: FileSystem, config: Config, env: Env, pf: FloatParser)
      returns (config': Config, err: Option<Error>)
      modifies fs
      ensures Effect(config', fs.files, err) ==
        LoadWithEnvEffect(codec, filePath, old(fs.files), fs.faults, config, env, pf)
    {
      config', err := Load(fs, config);
      if err.Some? {
        return;
      }
      var e;
      config', e := ApplyEnvOverrides(config', env, pf);
      err := if e.Some? then Some(EnvFailure(e.value)) else None;
    }

    /**
      `LoadOrExitWithEnv`: existence is sampled before loading, and the exit
      function is invoked only after both the load and the overlay succeed.
    */
    method LoadOrExitWithEnv(fs: FileSystem, config: Config, env: Env, pf: FloatParser)
      returns (config': Config, err: Option<Error>)
      modifies fs, this`exits
      ensures Effect(config', fs.files, err) ==
        LoadWithEnvEffect(codec, filePath, old(fs.files), fs.faults, config, env, pf)
      ensures exits == old(exits) +
        if !Present(old(fs.files), fs.faults, filePath) && err.None? then [ExitCall(exitFunc, exitCode)] else []
    {
      var existed := Exists(fs);
      config', err := LoadWithEnv(fs, config, env, pf);
      if err.Some? {
        return;
      }
      if !existed {
        exits := exits + [ExitCall(exitFunc, exitCode)];
      }
    }
  }
}
