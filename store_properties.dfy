/**
  Properties of the file-backed store: what `Load`, `Save`, `Delete` and
  `createFile` do to the record and to the files, the round trip through a
  codec that inverts its own encoding, and the order of loading, the
  environment overlay and the exit.
*/
module StoreProperties {
  import opened Wrappers
  import opened EnvOverlay
  import opened Store

  /** No os call on `path` fails for a reason other than the file's absence. */
  predicate Healthy(faults: Faults, path: string) {
    && (Stat, path) !in faults && (Open, path) !in faults && (OpenReadWrite, path) !in faults
    && (MkdirAll, path) !in faults && (Create, path) !in faults && (Remove, path) !in faults
  }

  /**
    The assumption the round trip needs of a codec: decoding what it encoded
    from a struct record, into any struct record, gives that record back
    with no error.
  */
  ghost predicate RoundTrips(c: Codec) {
    forall r: Config, into: Config {:trigger c.decode(c.encode(r).value, into)} ::
      r.StructPtr? && into.StructPtr? && c.encode(r).Success? ==>
        c.decode(c.encode(r).value, into) == Decoded(r, None)
  }

  // ---------------------------------------------------------------------
  // Load

  /** First run: a missing file is created holding the encoded record, and the record is unchanged. */
  lemma LoadCreatesMissingFile(c: Codec, path: string, files: Files, faults: Faults, config: Config)
    requires path !in files && Healthy(faults, path) && c.encode(config).Success?
    ensures LoadEffect(c, path, files, faults, config) ==
      Effect(config, files[path := c.encode(config).value], None)
  {
  }

  /** A missing file whose record cannot be encoded is still created, left empty, and the codec error returned. */
  lemma LoadMissingEncodeFails(c: Codec, path: string, files: Files, faults: Faults, config: Config)
    requires path !in files && Healthy(faults, path) && c.encode(config).Failure?
    ensures LoadEffect(c, path, files, faults, config) ==
      Effect(config, files[path := []], Some(CodecError(c.encode(config).error)))
  {
  }

  /** A file that opens is decoded into the record; nothing is written. */
  lemma LoadDecodesPresentFile(c: Codec, path: string, files: Files, faults: Faults, config: Config)
    requires path in files && (Open, path) !in faults
    ensures var l := LoadEffect(c, path, files, faults, config);
      var d := c.decode(files[path], config);
      l.config == d.config && l.files == files && (l.err.None? <==> d.err.None?)
  {
  }

  /** An open error other than "does not exist" is returned as it is, and nothing is created or decoded. */
  lemma LoadOtherOpenError(c: Codec, path: string, files: Files, faults: Faults, config: Config)
    requires (Open, path) in faults
    ensures LoadEffect(c, path, files, faults, config) ==
      Effect(config, files, Some(PathError(Open, path, OtherError)))
  {
  }

  /** `Load` leaves the record as it was whenever it does not decode a file. */
  lemma LoadKeepsRecordUnlessDecoding(c: Codec, path: string, files: Files, faults: Faults, config: Config)
    requires path !in files || (Open, path) in faults
    ensures LoadEffect(c, path, files, faults, config).config == config
  {
  }

  /** After a `Load` that succeeded, the file exists. */
  lemma LoadSuccessMeansPresent(c: Codec, path: string, files: Files, faults: Faults, config: Config)
    requires LoadEffect(c, path, files, faults, config).err.None?
    ensures Present(LoadEffect(c, path, files, faults, config).files, faults, path)
  {
  }

  // ---------------------------------------------------------------------
  // Save

  /** `Save` on a file that does not exist is exactly `createFile`. */
  lemma SaveMissingIsCreate(c: Codec, path: string, files: Files, faults: Faults, config: Config)
    requires !Present(files, faults, path)
    ensures SaveEffect(c, path, files, faults, config) == CreateFileEffect(c, path, files, faults, config)
  {
  }

  /** `Save` on an existing file writes the encoding over its start without truncating it. */
  lemma SaveOverwrites(c: Codec, path: string, files: Files, faults: Faults, config: Config)
    requires path in files && Healthy(faults, path) && c.encode(config).Success?
    ensures SaveEffect(c, path, files, faults, config) ==
      FileEffect(files[path := Overwrite(files[path], c.encode(config).value)], None)
  {
  }

  /**
    When the new encoding is shorter than the file, the old tail remains
    after it: the file afterwards is not the encoding.
  */
  lemma SaveKeepsStaleTail(c: Codec, path: string, files: Files, faults: Faults, config: Config)
    requires path in files && Healthy(faults, path) && c.encode(config).Success?
    requires |c.encode(config).value| < |files[path]|
    ensures var b := c.encode(config).value;
      var s := SaveEffect(c, path, files, faults, config);
      s.files[path] == b + files[path][|b|..] && s.files[path] != b
  {
    var b := c.encode(config).value;
    var s := SaveEffect(c, path, files, faults, config);
    assert |s.files[path]| == |files[path]| > |b|;
  }

  /** When the new encoding is at least as long as the file, the file afterwards is exactly the encoding. */
  lemma SaveLongerReplaces(c: Codec, path: string, files: Files, faults: Faults, config: Config)
    requires Healthy(faults, path) && c.encode(config).Success?
    requires path in files ==> |c.encode(config).value| >= |files[path]|
    ensures var s := SaveEffect(c, path, files, faults, config);
      s.err.None? && s.files == files[path := c.encode(config).value]
  {
    var b := c.encode(config).value;
    if path in files {
      var r := Overwrite(files[path], b);
      assert r == r[..|b|] + r[|b|..];
    }
  }

  /** Writing the same bytes twice from the start leaves what writing them once left. */
  lemma OverwriteIdempotent(prev: seq<byte>, data: seq<byte>)
    ensures Overwrite(Overwrite(prev, data), data) == Overwrite(prev, data)
  {
    var once := Overwrite(prev, data);
    var twice := Overwrite(once, data);
    assert once == once[..|data|] + once[|data|..];
    assert twice == twice[..|data|] + twice[|data|..];
  }

  /** Saving the same record twice leaves the files as saving it once did. */
  lemma SaveIdempotent(c: Codec, path: string, files: Files, faults: Faults, config: Config)
    requires Healthy(faults, path)
    requires SaveEffect(c, path, files, faults, config).err.None?
    ensures var s := SaveEffect(c, path, files, faults, config);
      SaveEffect(c, path, s.files, faults, config) == s
  {
    var b := c.encode(config).value;
    if path in files {
      OverwriteIdempotent(files[path], b);
    } else {
      assert Overwrite([], b) == b;
    }
  }

  /** After a `Save` that succeeded, the file exists. */
  lemma SaveSuccessMeansPresent(c: Codec, path: string, files: Files, faults: Faults, config: Config)
    requires SaveEffect(c, path, files, faults, config).err.None?
    ensures Present(SaveEffect(c, path, files, faults, config).files, faults, path)
  {
  }

  // ---------------------------------------------------------------------
  // Round trips

  /**
    Saving a struct record and loading the file into any struct record
    gives the saved record back, provided the codec inverts its encoding
    and the encoding is at least as long as the file it overwrites.
  */
  lemma SaveThenLoad(c: Codec, path: string, files: Files, faults: Faults, saved: Config, into: Config)
    requires RoundTrips(c) && Healthy(faults, path)
    requires saved.StructPtr? && into.StructPtr? && c.encode(saved).Success?
    requires path in files ==> |c.encode(saved).value| >= |files[path]|
    ensures var s := SaveEffect(c, path, files, faults, saved);
      LoadEffect(c, path, s.files, faults, into) == Effect(saved, s.files, None)
  {
    SaveLongerReplaces(c, path, files, faults, saved);
    var s := SaveEffect(c, path, files, faults, saved);
    assert s.files[path] == c.encode(saved).value;
    assert c.decode(c.encode(saved).value, into) == Decoded(saved, None);
  }

  /**
    A first `Load` on a missing file leaves the record as it was and
    persists it; a second `Load`, into any struct record, gives that record
    back and writes nothing.
  */
  lemma LoadTwice(c: Codec, path: string, files: Files, faults: Faults, defaults: Config, into: Config)
    requires RoundTrips(c) && Healthy(faults, path) && path !in files
    requires defaults.StructPtr? && into.StructPtr? && c.encode(defaults).Success?
    ensures var first := LoadEffect(c, path, files, faults, defaults);
      first == Effect(defaults, files[path := c.encode(defaults).value], None) &&
      LoadEffect(c, path, first.files, faults, into) == Effect(defaults, first.files, None)
  {
    LoadCreatesMissingFile(c, path, files, faults, defaults);
    assert c.decode(c.encode(defaults).value, into) == Decoded(defaults, None);
  }

  // ---------------------------------------------------------------------
  // Delete

  /** A `Delete` that succeeded removes the file; `Exists` is then false unless stat itself fails. */
  lemma DeleteRemoves(path: string, files: Files, faults: Faults)
    requires DeleteEffect(path, files, faults).err.None?
    ensures var d := DeleteEffect(path, files, faults);
      d.files == files - {path} && (Present(d.files, faults, path) <==> (Stat, path) in faults)
  {
  }

  /** Deleting a file that does not exist is a "does not exist" error and changes nothing. */
  lemma DeleteMissing(path: string, files: Files, faults: Faults)
    requires path !in files && (Remove, path) !in faults
    ensures DeleteEffect(path, files, faults) == FileEffect(files, Some(PathError(Remove, path, NotExist)))
  {
  }

  /** Save, then Delete, on a healthy path leaves the other files as they were and this one gone. */
  lemma SaveThenDelete(c: Codec, path: string, files: Files, faults: Faults, config: Config)
    requires Healthy(faults, path) && c.encode(config).Success?
    ensures var s := SaveEffect(c, path, files, faults, config);
      DeleteEffect(path, s.files, faults) == FileEffect(files - {path}, None)
  {
    var s := SaveEffect(c, path, files, faults, config);
    assert s.files - {path} == files - {path};
  }

  // ---------------------------------------------------------------------
  // Loading with the environment overlay

  /** A failed `Load` is returned as it is: the overlay never runs. */
  lemma LoadWithEnvStopsOnLoadError(c: Codec, path: string, files: Files, faults: Faults, config: Config,
                                   env: Env, pf: FloatParser)
    requires LoadEffect(c, path, files, faults, config).err.Some?
    ensures LoadWithEnvEffect(c, path, files, faults, config, env, pf) ==
      LoadEffect(c, path, files, faults, config)
  {
  }

  /** After a successful `Load`, the record is the overlay of what was loaded and the files are those of the load. */
  lemma LoadWithEnvOverlaysLoaded(c: Codec, path: string, files: Files, faults: Faults, config: Config,
                                  env: Env, pf: FloatParser)
    requires LoadEffect(c, path, files, faults, config).err.None?
    ensures var l := LoadEffect(c, path, files, faults, config);
      var o := EnvOverrides(l.config, env, pf);
      var r := LoadWithEnvEffect(c, path, files, faults, config, env, pf);
      r.config == o.value && r.files == l.files && (r.err.None? <==> o.err.None?) &&
      (o.err.Some? ==> r.err == Some(EnvFailure(o.err.value)))
  {
  }

  /**
    On a first run the new file holds the record as it was before the
    overlay: environment values reach the record but are never persisted.
  */
  lemma LoadWithEnvPersistsDefaults(c: Codec, path: string, files: Files, faults: Faults, config: Config,
                                    env: Env, pf: FloatParser)
    requires path !in files && Healthy(faults, path) && c.encode(config).Success?
    ensures var r := LoadWithEnvEffect(c, path, files, faults, config, env, pf);
      r.files == files[path := c.encode(config).value] && r.config == EnvOverrides(config, env, pf).value
  {
    LoadCreatesMissingFile(c, path, files, faults, config);
  }

  // ---------------------------------------------------------------------
  // The store in use

  /**
    The life cycle of one file processor: the file does not exist; `Load`
    creates it and keeps the defaults; `Save` persists an updated record;
    `Load` into a cleared record brings the update back; `Delete` removes
    the file.
  */
  method ProcessorLifeCycle(c: Codec, fs: FileSystem, defaults: Config, updated: Config, cleared: Config)
    returns (t: TinyConf)
    requires RoundTrips(c) && Healthy(fs.faults, DefaultFileName(c.format))
    requires DefaultFileName(c.format) !in fs.files
    requires defaults.StructPtr? && updated.StructPtr? && cleared.StructPtr?
    requires c.encode(defaults).Success? && c.encode(updated).Success?
    requires |c.encode(updated).value| >= |c.encode(defaults).value|
    modifies fs
    ensures fs.files == old(fs.files)
  {
    t := new TinyConf.NewTinyConfWithFp(c, []);
    var present := t.Exists(fs);
    assert !present;

    var loaded, err := t.Load(fs, defaults);
    assert err.None? && loaded == defaults;
    present := t.Exists(fs);
    assert present;

    var before := fs.files;
    err := t.Save(fs, updated);
    SaveThenLoad(c, t.filePath, before, fs.faults, updated, cleared);
    assert err.None?;

    loaded, err := t.Load(fs, cleared);
    assert err.None? && loaded == updated;

    err := t.Delete(fs);
    assert err.None?;
    present := t.Exists(fs);
    assert !present;
    assert fs.files == old(fs.files)[t.filePath := c.encode(updated).value] - {t.filePath};
  }

  /**
    `LoadOrExit` on a missing file creates it and then invokes the injected
    exit function once, with the configured exit code.
  */
  method LoadOrExitFirstRun(json: Codec, fs: FileSystem, config: Config, code: int) returns (t: TinyConf)
    requires json.format == Json && Healthy(fs.faults, "test.json") && "test.json" !in fs.files
    requires json.encode(config).Success?
    modifies fs
    ensures t.exits == [ExitCall(Injected(1), code)]
    ensures fs.files == old(fs.files)["test.json" := json.encode(config).value]
  {
    t := new TinyConf.NewTinyConf(json, ["test.json"]);
    var self := t.SetExitCode(code);
    self := t.SetExitFunc(Injected(1));
    var loaded, err := t.LoadOrExit(fs, config);
  }
}
