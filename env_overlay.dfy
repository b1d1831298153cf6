/**
  The environment-variable overlay of env.go. Reflection is replaced by an
  explicit descriptor of the record: a sequence of fields, each with its Go
  name, whether it is exported, the value of its `env` struct tag and its
  current value, whose constructor stands for the field's reflect.Kind.

  `OverlayField` and `OverlayFields` are the specification of the walk;
  `ApplyEnvToStruct` is the walk itself, a loop over the field indices that
  updates one field at a time, proved equal to the specification.
*/
module EnvOverlay {
  import opened Wrappers
  import opened Strconv

  /** The bit size of a sized integer kind. Go's plain `int` and `uint` are W64 on 64-bit platforms. */
  datatype IntWidth = W8 | W16 | W32 | W64

  datatype FloatWidth = F32 | F64

  /** 2^bits for an integer width. */
  function Modulus(w: IntWidth): nat {
    match w
    case W8 => 0x100
    case W16 => 0x1_0000
    case W32 => 0x1_0000_0000
    case W64 => 0x1_0000_0000_0000_0000
  }

  predicate FitsSigned(w: IntWidth, x: int) {
    -(Modulus(w) / 2) <= x < Modulus(w) / 2
  }

  predicate FitsUnsigned(w: IntWidth, n: nat) {
    n < Modulus(w)
  }

  /**
    The value of a field, tagged by its kind. `PtrNested` is a pointer to a
    struct: `zero` is the zero value of the pointee type (what `reflect.New`
    allocates) and `target` is the pointer itself. `Float`
    holds the IEEE-754 binary64 pattern handed to `SetFloat`. `Other` is any
    kind the overlay cannot convert (slices, maps, pointers to non-structs,
    ...), named as reflect.Kind prints it.
  */
  datatype Value =
    | Str(s: string)
    | Int(iw: IntWidth, i: int)
    | Uint(uw: IntWidth, n: nat)
    | Float(fw: FloatWidth, bits: bv64)
    | Bool(b: bool)
    | Nested(fields: seq<Field>)
    | PtrNested(zero: seq<Field>, target: Pointer)
    | Other(kind: string)

  /** A pointer to a struct value: nil, or the pointee's fields. */
  datatype Pointer = Nil | Points(pointee: seq<Field>)

  /** One struct field. `envTag` is `Tag.Get("env")`: the empty string when there is no tag. */
  datatype Field = Field(name: string, exported: bool, envTag: string, val: Value)

  /** The argument passed as `config interface{}`. */
  datatype Config =
    | StructPtr(record: seq<Field>)
    | NilPtr
    | PtrToNonStruct(elemKind: string)
    | NonPointer(kind: string)

  /** The process environment, as `os.LookupEnv` sees it. */
  type Env = map<string, string>

  /** `strconv.ParseFloat(s, 64)`, whose floating-point numerics are not modelled. */
  type FloatParser = string -> Parsed<bv64>

  /** Why `setFieldValue` failed: a `*strconv.NumError`, or an unsupported kind. */
  datatype SetError = Conversion(numErr: NumError) | Unsupported(typeName: string)

  datatype EnvError =
    | NotPointer   // "config must be a non-nil pointer to a struct"
    | NotStruct    // "config must be a pointer to a struct"
    | FieldError(fieldName: string, envVar: string, cause: SetError)

  /** A walk's result: the (possibly partly) updated value and the error that stopped it, if any. */
  datatype Overlaid<+T> = Overlaid(value: T, err: Option<EnvError>)

  /** The kinds `setFieldValue` is reached with for a tagged field. */
  predicate IsScalar(v: Value) {
    !(v.Nested? || v.PtrNested?)
  }

  /** Two values of the same kind (and the same bit size, for sized kinds). */
  predicate SameKind(v: Value, u: Value) {
    match v
    case Str(_) => u.Str?
    case Int(w, _) => u.Int? && u.iw == w
    case Uint(w, _) => u.Uint? && u.uw == w
    case Float(w, _) => u.Float? && u.fw == w
    case Bool(_) => u.Bool?
    case Nested(_) => u.Nested?
    case PtrNested(_, _) => u.PtrNested?
    case Other(k) => u.Other? && u.kind == k
  }

  /** `reflect.Value.SetInt` on a field of width `w`: two's-complement truncation. */
  function TruncSigned(w: IntWidth, x: int): (y: int)
    ensures FitsSigned(w, y)
    ensures FitsSigned(w, x) ==> y == x
    ensures (x - y) % Modulus(w) == 0
  {
    var half := Modulus(w) / 2;
    var y := (x + half) % Modulus(w) - half;
    assert x - y == Modulus(w) * ((x + half) / Modulus(w));
    y
  }

  /** `reflect.Value.SetUint` on a field of width `w`: the low `w` bits. */
  function TruncUnsigned(w: IntWidth, n: nat): (m: nat)
    ensures FitsUnsigned(w, m)
    ensures FitsUnsigned(w, n) ==> m == n
    ensures (n - m) % Modulus(w) == 0
  {
    var m := n % Modulus(w);
    assert n - m == Modulus(w) * (n / Modulus(w));
    m
  }

  /**
    `setFieldValue`: convert the variable's text to the field's kind. The
    integer kinds always parse at bit size 64 and then truncate to the
    field's width; an unsupported kind is an error.
  */
  function SetFieldValue(v: Value, s: string, pf: FloatParser): (r: Result<Value, SetError>)
    ensures r.Success? ==> SameKind(v, r.value)
    ensures (r.Failure? && r.error.Unsupported?) <==> !IsScalar(v) || v.Other?
    ensures v.Str? ==> r == Success(Str(s))
    ensures v.Int? ==> (r.Success? <==> ParseInt(s).Ok?)
    ensures v.Uint? ==> (r.Success? <==> ParseUint(s).Ok?)
    ensures v.Bool? ==> (r.Success? <==> s in TrueLiterals + FalseLiterals)
    ensures v.Bool? && r.Success? ==> r.value == Bool(s in TrueLiterals)
  {
    match v
    case Str(_) => Success(Str(s))
    case Int(w, _) =>
      (match ParseInt(s)
       case Ok(x) => Success(Int(w, TruncSigned(w, x)))
       case Err(e) => Failure(Conversion(e)))
    case Uint(w, _) =>
      (match ParseUint(s)
       case Ok(n) => Success(Uint(w, TruncUnsigned(w, n)))
       case Err(e) => Failure(Conversion(e)))
    case Float(w, _) =>
      (match pf(s)
       case Ok(bits) => Success(Float(w, bits))
       case Err(e) => Failure(Conversion(e)))
    case Bool(_) =>
      (match ParseBool(s)
       case Ok(b) => Success(Bool(b))
       case Err(e) => Failure(Conversion(e)))
    case Nested(_) => Failure(Unsupported("struct"))
    case PtrNested(_, _) => Failure(Unsupported("ptr"))
    case Other(k) => Failure(Unsupported(k))
  }

  /**
    What the walk does to one field: skip it when unexported; walk a struct
    field in place; allocate a nil pointer-to-struct with the zero value and
    walk the pointee; otherwise, when the field is tagged and the variable
    is set, convert and assign, or fail naming the field and the variable.
  */
  function OverlayField(f: Field, env: Env, pf: FloatParser): (r: Overlaid<Field>)
    ensures r.value.name == f.name && r.value.exported == f.exported && r.value.envTag == f.envTag
    decreases f, 1
  {
    if !f.exported then Overlaid(f, None)
    else match f.val
      case Nested(children) =>
        var o := OverlayFields(children, env, pf);
        Overlaid(f.(val := Nested(o.value)), o.err)
      case PtrNested(zero, target) =>
        var o := match target
                 case Points(pointee) => OverlayFields(pointee, env, pf)
                 case Nil => OverlayFields(zero, env, pf);
        Overlaid(f.(val := PtrNested(zero, Points(o.value))), o.err)
      case _ =>
        if f.envTag == "" || f.envTag !in env then Overlaid(f, None)
        else match SetFieldValue(f.val, env[f.envTag], pf)
          case Success(v) => Overlaid(f.(val := v), None)
          case Failure(e) => Overlaid(f, Some(FieldError(f.name, f.envTag, e)))
  }

  /** `applyEnvToStruct`: the fields in declaration order, stopping at the first error. */
  function OverlayFields(fs: seq<Field>, env: Env, pf: FloatParser): (r: Overlaid<seq<Field>>)
    ensures |r.value| == |fs|
    decreases fs, 0
  {
    if fs == [] then Overlaid([], None)
    else
      var head := OverlayField(fs[0], env, pf);
      if head.err.Some? then Overlaid([head.value] + fs[1..], head.err)
      else
        var tail := OverlayFields(fs[1..], env, pf);
        Overlaid([head.value] + tail.value, tail.err)
  }

  /** `applyEnvOverrides`: only a non-nil pointer to a struct is walked. */
  function EnvOverrides(c: Config, env: Env, pf: FloatParser): (r: Overlaid<Config>)
    ensures c.StructPtr? ==> r.value.StructPtr? && |r.value.record| == |c.record|
    ensures !c.StructPtr? ==> r.value == c && r.err.Some?
  {
    match c
    case StructPtr(fs) =>
      var o := OverlayFields(fs, env, pf);
      Overlaid(StructPtr(o.value), o.err)
    case NilPtr => Overlaid(c, Some(NotPointer))
    case NonPointer(_) => Overlaid(c, Some(NotPointer))
    case PtrToNonStruct(_) => Overlaid(c, Some(NotStruct))
  }

  /**
    Walking `ps + qs` walks `ps` and, unless that failed, then `qs`; a
    failure in `ps` leaves `qs` as it was.
  */
  lemma {:induction false} OverlayFieldsAppend(ps: seq<Field>, qs: seq<Field>, env: Env, pf: FloatParser)
    ensures var p := OverlayFields(ps, env, pf);
      OverlayFields(ps + qs, env, pf) ==
        if p.err.Some? then Overlaid(p.value + qs, p.err)
        else var q := OverlayFields(qs, env, pf); Overlaid(p.value + q.value, q.err)
  {
    if ps == [] {
      assert ps + qs == qs;
      assert OverlayFields(ps, env, pf).value + OverlayFields(qs, env, pf).value == OverlayFields(qs, env, pf).value;
    } else {
      assert (ps + qs)[0] == ps[0];
      assert (ps + qs)[1..] == ps[1..] + qs;
      var head := OverlayField(ps[0], env, pf);
      if head.err.None? {
        OverlayFieldsAppend(ps[1..], qs, env, pf);
        var p1 := OverlayFields(ps[1..], env, pf);
        var q := OverlayFields(qs, env, pf);
        assert ([head.value] + p1.value) + qs == [head.value] + (p1.value + qs);
        assert ([head.value] + p1.value) + q.value == [head.value] + (p1.value + q.value);
      } else {
        assert ([head.value] + ps[1..]) + qs == [head.value] + (ps[1..] + qs);
      }
    }
  }

  /** One iteration of the loop: the walk of the first `i + 1` fields, and of all of them when field `i` fails. */
  lemma OverlayFieldsStep(fs: seq<Field>, i: nat, env: Env, pf: FloatParser)
    requires i < |fs| && OverlayFields(fs[..i], env, pf).err.None?
    ensures var p := OverlayFields(fs[..i], env, pf);
      var h := OverlayField(fs[i], env, pf);
      OverlayFields(fs[..i + 1], env, pf) == Overlaid(p.value + [h.value], h.err) &&
      (h.err.Some? ==> OverlayFields(fs, env, pf) == Overlaid(p.value + ([h.value] + fs[i + 1..]), h.err))
  {
    var f, rest := fs[i], fs[i + 1..];
    var h := OverlayField(f, env, pf);
    assert fs[..i + 1] == fs[..i] + [f];
    assert fs == fs[..i] + ([f] + rest);
    assert ([f] + rest)[0] == f && ([f] + rest)[1..] == rest;
    assert [f][1..] == [] && [h.value] + [] == [h.value];
    assert OverlayFields([f], env, pf) == Overlaid([h.value], h.err);
    OverlayFieldsAppend(fs[..i], [f], env, pf);
    OverlayFieldsAppend(fs[..i], [f] + rest, env, pf);
  }

  /**
    The loop of `applyEnvToStruct`: handle each index in turn; return at
    the first error with every earlier assignment kept.
  */
  method ApplyEnvToStruct(fields: seq<Field>, env: Env, pf: FloatParser)
    returns (out: seq<Field>, err: Option<EnvError>)
    ensures Overlaid(out, err) == OverlayFields(fields, env, pf)
    decreases fields, 0
  {
    out := fields;
    var i := 0;
    while i < |out|
      invariant 0 <= i <= |out| == |fields|
      invariant out[i..] == fields[i..]
      invariant OverlayFields(fields[..i], env, pf) == Overlaid(out[..i], None)
    {
      ghost var done, rest := out[..i], fields[i + 1..];
      OverlayFieldsStep(fields, i, env, pf);
      assert out[i + 1..] == out[i..][1..] == rest;
      var updated, e := ApplyEnvToField(out[i], env, pf);
      out := out[i := updated];
      if e.Some? {
        assert out == done + ([updated] + rest);
        err := e;
        return;
      }
      assert out[..i + 1] == done + [out[i]] && out[i + 1..] == rest;
      i := i + 1;
    }
    assert fields[..i] == fields && out[..i] == out;
    err := None;
  }

  /**
    The body of that loop for one field: skip it when unexported; recurse
    into a struct; allocate a nil pointer-to-struct, then recurse into the
    pointee; otherwise convert and assign when tagged and set.
  */
  method ApplyEnvToField(field: Field, env: Env, pf: FloatParser)
    returns (updated: Field, err: Option<EnvError>)
    ensures Overlaid(updated, err) == OverlayField(field, env, pf)
    decreases field, 1
  {
    updated, err := field, None;
    if !field.exported {
      // unexported: left as it is
    } else if field.val.Nested? {
      var inner;
      inner, err := ApplyEnvToStruct(field.val.fields, env, pf);
      updated := field.(val := Nested(inner));
    } else if field.val.PtrNested? {
      var pointee := field.val.zero;   // reflect.New: a zero-valued struct
      if field.val.target.Points? {
        pointee := field.val.target.pointee;
      }
      var inner;
      inner, err := ApplyEnvToStruct(pointee, env, pf);
      updated := field.(val := PtrNested(field.val.zero, Points(inner)));
    } else if field.envTag != "" && field.envTag in env {
      var r := SetFieldValue(field.val, env[field.envTag], pf);
      if r.Success? {
        updated := field.(val := r.value);
      } else {
        err := Some(FieldError(field.name, field.envTag, r.error));
      }
    }
  }

  /** `applyEnvOverrides`: reject anything but a non-nil pointer to a struct, then walk it. */
  method ApplyEnvOverrides(config: Config, env: Env, pf: FloatParser)
    returns (config': Config, err: Option<EnvError>)
    ensures Overlaid(config', err) == EnvOverrides(config, env, pf)
    ensures !config.StructPtr? ==>
      config' == config && err == Some(if config.PtrToNonStruct? then NotStruct else NotPointer)
  {
    if config.NilPtr? || config.NonPointer? {
      return config, Some(NotPointer);
    }
    if config.PtrToNonStruct? {
      return config, Some(NotStruct);
    }
    var fields, e := ApplyEnvToStruct(config.record, env, pf);
    config', err := StructPtr(fields), e;
  }

  /** `LoadFromEnv`: the overlay alone, with no file involved. */
  method LoadFromEnv(config: Config, env: Env, pf: FloatParser)
    returns (config': Config, err: Option<EnvError>)
    ensures Overlaid(config', err) == EnvOverrides(config, env, pf)
  {
    config', err := ApplyEnvOverrides(config, env, pf);
  }
}
