/**
  What the overlay of env.go promises, proved about its specification
  `OverlayField` / `OverlayFields` (which `ApplyEnvToStruct` is proved to
  compute): where the walk stops, which fields it leaves alone, that it
  allocates every nil pointer-to-struct it reaches, that running it twice
  changes nothing more, and where an error comes from.
*/
module EnvProperties {
  import opened Wrappers
  import opened Strconv
  import opened EnvOverlay

  /** A field the walk leaves alone: unexported, or a scalar without a tag or whose variable is unset. */
  predicate Inert(f: Field, env: Env) {
    !f.exported || (IsScalar(f.val) && (f.envTag == "" || f.envTag !in env))
  }

  /** The walk of `fs` processed fields `0..k-1` without error, failed at field `k`, and left the rest alone. */
  ghost predicate StopsAt(fs: seq<Field>, o: Overlaid<seq<Field>>, k: nat, env: Env, pf: FloatParser)
    requires |o.value| == |fs|
  {
    k < |fs| &&
    (forall i :: 0 <= i < k ==> OverlayField(fs[i], env, pf) == Overlaid(o.value[i], None)) &&
    OverlayField(fs[k], env, pf) == Overlaid(o.value[k], o.err) &&
    (forall i :: k < i < |fs| ==> o.value[i] == fs[i])
  }

  /**
    Fields are processed in declaration order: on success every field is
    its own walk; on failure there is one field where it failed, every
    earlier field is its own (successful) walk and every later field is
    untouched.
  */
  lemma {:induction false} OverlayFieldsPointwise(fs: seq<Field>, env: Env, pf: FloatParser)
    ensures var o := OverlayFields(fs, env, pf);
      |o.value| == |fs| &&
      (o.err.None? ==> forall i :: 0 <= i < |fs| ==> OverlayField(fs[i], env, pf) == Overlaid(o.value[i], None)) &&
      (o.err.Some? ==> exists k: nat :: StopsAt(fs, o, k, env, pf))
  {
    if fs != [] {
      var o := OverlayFields(fs, env, pf);
      var h := OverlayField(fs[0], env, pf);
      if h.err.Some? {
        forall i | 0 < i < |fs| ensures o.value[i] == fs[i] {
          assert o.value[i] == fs[1..][i - 1];
        }
        assert StopsAt(fs, o, 0, env, pf);
      } else {
        var t := OverlayFields(fs[1..], env, pf);
        OverlayFieldsPointwise(fs[1..], env, pf);
        assert o.value == [h.value] + t.value;
        if t.err.Some? {
          var k: nat :| StopsAt(fs[1..], t, k, env, pf);
          forall i | k + 1 < i < |fs| ensures o.value[i] == fs[i] {
            assert o.value[i] == t.value[i - 1] == fs[1..][i - 1];
          }
          assert StopsAt(fs, o, k + 1, env, pf);
        } else {
          forall i | 0 <= i < |fs| ensures OverlayField(fs[i], env, pf) == Overlaid(o.value[i], None) {
            if i > 0 {
              assert o.value[i] == t.value[i - 1] && fs[i] == fs[1..][i - 1];
            }
          }
        }
      }
    }
  }

  /** Unexported fields, untagged scalars and scalars whose variable is unset keep their value, even when the walk fails. */
  lemma InertFieldsUnchanged(fs: seq<Field>, env: Env, pf: FloatParser)
    ensures var o := OverlayFields(fs, env, pf);
      |o.value| == |fs| && forall i :: 0 <= i < |fs| && Inert(fs[i], env) ==> o.value[i] == fs[i]
  {
    var o := OverlayFields(fs, env, pf);
    OverlayFieldsPointwise(fs, env, pf);
    if o.err.Some? {
      var k: nat :| StopsAt(fs, o, k, env, pf);
    }
  }

  /** On success, every exported, tagged scalar whose variable is set holds the conversion of the variable's text. */
  lemma TaggedFieldsConverted(fs: seq<Field>, env: Env, pf: FloatParser)
    requires OverlayFields(fs, env, pf).err.None?
    ensures var out := OverlayFields(fs, env, pf).value;
      |out| == |fs| &&
      forall i :: 0 <= i < |fs| && fs[i].exported && IsScalar(fs[i].val) && fs[i].envTag != "" && fs[i].envTag in env ==>
        SetFieldValue(fs[i].val, env[fs[i].envTag], pf) == Success(out[i].val)
  {
    OverlayFieldsPointwise(fs, env, pf);
  }

  /** The walk of one field keeps its name, export status, tag and kind. */
  lemma OverlayFieldShape(f: Field, env: Env, pf: FloatParser)
    ensures var g := OverlayField(f, env, pf).value;
      g.name == f.name && g.exported == f.exported && g.envTag == f.envTag && SameKind(f.val, g.val)
  {
  }

  /** The walk never adds, removes or renames fields, nor changes their kind. */
  lemma OverlayFieldsShape(fs: seq<Field>, env: Env, pf: FloatParser)
    ensures var out := OverlayFields(fs, env, pf).value;
      |out| == |fs| &&
      forall i :: 0 <= i < |fs| ==>
        out[i].name == fs[i].name && out[i].exported == fs[i].exported &&
        out[i].envTag == fs[i].envTag && SameKind(fs[i].val, out[i].val)
  {
    OverlayFieldsPointwise(fs, env, pf);
    var o := OverlayFields(fs, env, pf);
    forall i | 0 <= i < |fs|
      ensures o.value[i].name == fs[i].name && o.value[i].exported == fs[i].exported &&
              o.value[i].envTag == fs[i].envTag && SameKind(fs[i].val, o.value[i].val)
    {
      OverlayFieldShape(fs[i], env, pf);
      if o.err.Some? {
        var k: nat :| StopsAt(fs, o, k, env, pf);
        if i > k {
          assert o.value[i] == fs[i];
          SameKindReflexive(fs[i].val);
        }
      }
    }
  }

  lemma SameKindReflexive(v: Value)
    ensures SameKind(v, v)
  {
  }

  /** A struct-kind field is walked whatever its `env` tag says. */
  lemma StructTagIgnored(f: Field, tag: string, env: Env, pf: FloatParser)
    requires f.exported && !IsScalar(f.val)
    ensures var o := OverlayField(f, env, pf);
      OverlayField(f.(envTag := tag), env, pf) == Overlaid(o.value.(envTag := tag), o.err)
  {
  }

  // ---------------------------------------------------------------------
  // Allocation of nil pointers

  /** Every exported pointer-to-struct reachable through exported fields is non-nil. */
  ghost predicate FieldAllocated(f: Field)
    decreases f, 1
  {
    f.exported ==>
      match f.val
      case Nested(children) => AllAllocated(children)
      case PtrNested(_, Points(pointee)) => AllAllocated(pointee)
      case PtrNested(_, Nil) => false
      case _ => true
  }

  ghost predicate AllAllocated(fs: seq<Field>)
    decreases fs, 0
  {
    forall i :: 0 <= i < |fs| ==> FieldAllocated(fs[i])
  }

  lemma {:induction false} OverlayFieldAllocates(f: Field, env: Env, pf: FloatParser)
    requires OverlayField(f, env, pf).err.None?
    ensures FieldAllocated(OverlayField(f, env, pf).value)
    decreases f, 1
  {
    if f.exported {
      match f.val
      case Nested(children) => OverlayFieldsAllocate(children, env, pf);
      case PtrNested(zero, Points(pointee)) => OverlayFieldsAllocate(pointee, env, pf);
      case PtrNested(zero, Nil) => OverlayFieldsAllocate(zero, env, pf);
      case _ =>
    }
  }

  /** After a successful walk no exported pointer-to-struct it reached is nil: nil ones were allocated. */
  lemma {:induction false} OverlayFieldsAllocate(fs: seq<Field>, env: Env, pf: FloatParser)
    requires OverlayFields(fs, env, pf).err.None?
    ensures AllAllocated(OverlayFields(fs, env, pf).value)
    decreases fs, 0
  {
    if fs != [] {
      OverlayFieldAllocates(fs[0], env, pf);
      OverlayFieldsAllocate(fs[1..], env, pf);
      var o := OverlayFields(fs, env, pf);
      assert o.value == [OverlayField(fs[0], env, pf).value] + OverlayFields(fs[1..], env, pf).value;
    }
  }

  /** A nil pointer-to-struct is replaced by its zero value, walked, even when no variable is set. */
  lemma NilPointerAllocated(f: Field, env: Env, pf: FloatParser)
    requires f.exported && f.val.PtrNested? && f.val.target.Nil?
    ensures var o := OverlayField(f, env, pf);
      o.value.val == PtrNested(f.val.zero, Points(OverlayFields(f.val.zero, env, pf).value)) &&
      o.err == OverlayFields(f.val.zero, env, pf).err
  {
  }

  // ---------------------------------------------------------------------
  // Idempotence

  /** `setFieldValue` looks only at the field's kind, never at its current value. */
  lemma SetFieldValueByKind(v: Value, u: Value, s: string, pf: FloatParser)
    requires SameKind(v, u)
    ensures SetFieldValue(v, s, pf) == SetFieldValue(u, s, pf)
  {
  }

  lemma {:induction false} OverlayFieldIdempotent(f: Field, env: Env, pf: FloatParser)
    ensures var o := OverlayField(f, env, pf); OverlayField(o.value, env, pf) == o
    decreases f, 1
  {
    if !f.exported {
    } else if f.val.Nested? {
      OverlayFieldsIdempotent(f.val.fields, env, pf);
    } else if f.val.PtrNested? {
      match f.val.target
      case Points(pointee) => OverlayFieldsIdempotent(pointee, env, pf);
      case Nil => OverlayFieldsIdempotent(f.val.zero, env, pf);
    } else if f.envTag != "" && f.envTag in env {
      var r := SetFieldValue(f.val, env[f.envTag], pf);
      if r.Success? {
        SetFieldValueByKind(r.value, f.val, env[f.envTag], pf);
      }
    }
  }

  /**
    With a fixed environment, walking a record twice gives what walking it
    once gives: the same record and the same error.
  */
  lemma {:induction false} OverlayFieldsIdempotent(fs: seq<Field>, env: Env, pf: FloatParser)
    ensures var o := OverlayFields(fs, env, pf); OverlayFields(o.value, env, pf) == o
    decreases fs, 0
  {
    if fs != [] {
      var o := OverlayFields(fs, env, pf);
      var h := OverlayField(fs[0], env, pf);
      OverlayFieldIdempotent(fs[0], env, pf);
      assert o.value[0] == h.value;
      if h.err.Some? {
        assert o.value[1..] == fs[1..];
        assert [h.value] + o.value[1..] == o.value;
      } else {
        var t := OverlayFields(fs[1..], env, pf);
        OverlayFieldsIdempotent(fs[1..], env, pf);
        assert o.value[1..] == t.value;
      }
    }
  }

  /** `applyEnvOverrides` is idempotent, on every argument. */
  lemma EnvOverridesIdempotent(c: Config, env: Env, pf: FloatParser)
    ensures var o := EnvOverrides(c, env, pf); EnvOverrides(o.value, env, pf) == o
  {
    if c.StructPtr? {
      OverlayFieldsIdempotent(c.record, env, pf);
    }
  }

  /** Anything but a non-nil pointer to a struct is an error and is left as it is. */
  lemma EnvOverridesRejects(c: Config, env: Env, pf: FloatParser)
    requires !c.StructPtr?
    ensures EnvOverrides(c, env, pf) ==
      Overlaid(c, Some(if c.PtrToNonStruct? then NotStruct else NotPointer))
  {
  }

  // ---------------------------------------------------------------------
  // Where an error comes from

  /** `leaf` is `f` or is reached from it through exported struct fields and pointers. */
  ghost predicate FieldReaches(f: Field, leaf: Field)
    decreases f, 1
  {
    f.exported &&
    (f == leaf ||
     match f.val
     case Nested(children) => Reaches(children, leaf)
     case PtrNested(_, Points(pointee)) => Reaches(pointee, leaf)
     case _ => false)
  }

  ghost predicate Reaches(fs: seq<Field>, leaf: Field)
    decreases fs, 0
  {
    exists i :: 0 <= i < |fs| && FieldReaches(fs[i], leaf)
  }

  /** The leaf an error names: a tagged scalar with its variable set whose conversion failed. */
  ghost predicate Culprit(leaf: Field, e: EnvError, env: Env, pf: FloatParser) {
    e.FieldError? && leaf.name == e.fieldName && leaf.envTag == e.envVar &&
    e.envVar != "" && e.envVar in env && IsScalar(leaf.val) &&
    SetFieldValue(leaf.val, env[e.envVar], pf) == Failure(e.cause)
  }

  lemma {:induction false} OverlayFieldCulprit(f: Field, env: Env, pf: FloatParser) returns (leaf: Field)
    requires OverlayField(f, env, pf).err.Some?
    ensures var o := OverlayField(f, env, pf); FieldReaches(o.value, leaf) && Culprit(leaf, o.err.value, env, pf)
    decreases f, 1
  {
    var o := OverlayField(f, env, pf);
    match f.val
    case Nested(children) =>
      leaf := OverlayFieldsCulprit(children, env, pf);
      assert o.value.val.fields == OverlayFields(children, env, pf).value;
    case PtrNested(zero, Points(pointee)) =>
      leaf := OverlayFieldsCulprit(pointee, env, pf);
      assert o.value.val.target.pointee == OverlayFields(pointee, env, pf).value;
    case PtrNested(zero, Nil) =>
      leaf := OverlayFieldsCulprit(zero, env, pf);
      assert o.value.val.target.pointee == OverlayFields(zero, env, pf).value;
    case _ =>
      leaf := f;
  }

  /**
    A failed walk fails on a field it reached: exported, tagged, its
    variable set, and its conversion failing with the error's cause; the
    error carries that field's name and variable name.
  */
  lemma {:induction false} OverlayFieldsCulprit(fs: seq<Field>, env: Env, pf: FloatParser) returns (leaf: Field)
    requires OverlayFields(fs, env, pf).err.Some?
    ensures var o := OverlayFields(fs, env, pf); Reaches(o.value, leaf) && Culprit(leaf, o.err.value, env, pf)
    decreases fs, 0
  {
    var o := OverlayFields(fs, env, pf);
    OverlayFieldsPointwise(fs, env, pf);
    var k: nat :| StopsAt(fs, o, k, env, pf);
    leaf := OverlayFieldCulprit(fs[k], env, pf);
    assert FieldReaches(o.value[k], leaf);
  }

  // ---------------------------------------------------------------------
  // Conversions

  /**
    A signed field of any width accepts exactly what `ParseInt(s, 10, 64)`
    accepts and stores that value truncated to its width: congruent to the
    decimal value modulo 2^width, and equal to it when it fits.
  */
  lemma SetIntTruncates(w: IntWidth, x: int, s: string, pf: FloatParser)
    ensures var r := SetFieldValue(Int(w, x), s, pf);
      (r.Success? <==> IsSignedDecimal(s) && MinInt64 <= SignedValue(s) <= MaxInt64) &&
      (r.Success? ==>
        r.value.iw == w && FitsSigned(w, r.value.i) &&
        (SignedValue(s) - r.value.i) % Modulus(w) == 0 &&
        (FitsSigned(w, SignedValue(s)) ==> r.value.i == SignedValue(s)))
  {
    ParseIntCorrect(s);
  }

  /** An unsigned field of any width accepts exactly unsigned 64-bit decimals and keeps their low bits. */
  lemma SetUintTruncates(w: IntWidth, n: nat, s: string, pf: FloatParser)
    ensures var r := SetFieldValue(Uint(w, n), s, pf);
      (r.Success? <==> s != "" && AllDigits(s) && DecimalValue(s) <= MaxUint64) &&
      (r.Success? ==>
        r.value.uw == w && FitsUnsigned(w, r.value.n) &&
        (DecimalValue(s) - r.value.n) % Modulus(w) == 0 &&
        (FitsUnsigned(w, DecimalValue(s)) ==> r.value.n == DecimalValue(s)))
  {
    ParseUintCorrect(s);
  }

  /** Formatting a field's value and setting it from that text gives the value back. */
  lemma SetFieldValueFormatted(v: Value, pf: FloatParser)
    requires v.Int? ==> FitsSigned(v.iw, v.i)
    requires v.Uint? ==> FitsUnsigned(v.uw, v.n)
    requires v.Str? || v.Int? || v.Uint? || v.Bool?
    ensures var text := match v
                        case Str(s) => s
                        case Int(_, i) => FormatInt(i)
                        case Uint(_, n) => FormatUint(n)
                        case Bool(b) => FormatBool(b)
                        case _ => "";
      SetFieldValue(v, text, pf) == Success(v)
  {
    match v
    case Int(w, i) => ParseIntFormat(i);
    case Uint(w, n) => ParseUintFormat(n);
    case Bool(b) => ParseBoolFormat(b);
    case Str(_) =>
  }

  /** An 8-bit field set from "300" holds 44: the text is parsed at 64 bits and then truncated. */
  lemma Int8FromThreeHundred(pf: FloatParser)
    ensures SetFieldValue(Int(W8, 0), "300", pf) == Success(Int(W8, 44))
  {
    assert ParseUint("300") == Ok(300);
  }

  /** `ParseUint` takes no sign: "+1" and "-1" are syntax errors for an unsigned field. */
  lemma UintRejectsSign(w: IntWidth, n: nat, pf: FloatParser)
    ensures SetFieldValue(Uint(w, n), "+1", pf) == Failure(Conversion(ErrSyntax))
    ensures SetFieldValue(Uint(w, n), "-1", pf) == Failure(Conversion(ErrSyntax))
  {
  }

  /**
    The `Port int` field tagged `env:"APP_PORT"`: with APP_PORT=8080 it
    becomes 8080; with APP_PORT unset it keeps its prior value 3000.
  */
  lemma PortScenario(pf: FloatParser)
    ensures var port := Field("Port", true, "APP_PORT", Int(W64, 3000));
      OverlayFields([port], map["APP_PORT" := "8080"], pf) == Overlaid([port.(val := Int(W64, 8080))], None) &&
      OverlayFields([port], map[], pf) == Overlaid([port], None)
  {
    var port := Field("Port", true, "APP_PORT", Int(W64, 3000));
    var env := map["APP_PORT" := "8080"];
    assert ParseUint("8080") == Ok(8080);
    assert ParseInt("8080") == Ok(8080);
    assert SetFieldValue(port.val, env["APP_PORT"], pf) == Success(Int(W64, 8080));
    assert OverlayField(port, env, pf) == Overlaid(port.(val := Int(W64, 8080)), None);
    assert OverlayField(port, map[], pf) == Overlaid(port, None);
    assert [port][1..] == [];
    assert [port.(val := Int(W64, 8080))] + [] == [port.(val := Int(W64, 8080))];
    assert [port] + [] == [port];
  }
}
