/** Properties that relate the two engines: what `MarshalURLValues`
    writes, `UnmarshalURLValues` reads back. */
module RoundTrip {
  import opened GoResults
  import opened GoStrings
  import opened GoStrconv
  import opened Reflect
  import opened Codec
  import opened UrlMarshal
  import opened UrlUnmarshal

  /** The field types whose values survive a trip through the text form
      unchanged whatever the library routines do: booleans, integers of
      a predeclared type, and strings. */
  predicate TextExact(t: FieldType) {
    t.Bool? || (t.Int? && !t.named && WellFormed(t)) || t.Str?
  }

  lemma ZeroFormatsAsZero()
    ensures FormatInt(0) == "0"
  {
    assert Digits(0) == [DigitChar(0)];
  }

  /** The values that survive the trip: a value of a `TextExact` type,
      or a non-nil error (written as its message, read back as
      `errors.New` of it).  A nil error is written "" and comes back as
      `errors.New("")`, so it is not one of them. */
  predicate TextValue(v: Value, t: FieldType) {
    (TextExact(t) && HasType(v, t)) || (t.ErrIface? && v.ErrV? && v.message.Some?)
  }

  /** A boolean, integer, string or non-nil error value is written as
      text that the field decoder turns back into the same value. */
  lemma {:induction false} ScalarRoundTrip(lib: Lib, v: Value, t: FieldType)
    requires TextValue(v, t)
    ensures StringFromValue(lib, v, t).Ok?
    ensures FromStringsToValue(lib, [StringFromValue(lib, v, t).value], t) == Ok(v)
  {
    var s := StringFromValue(lib, v, t).value;
    match t
    case Bool =>
      ParseBoolFormatBool(v.b);
    case Int(bits, signed, _) =>
      if v.i == 0 { ZeroFormatsAsZero(); }
      assert s == FormatInt(v.i);
      if signed { ParseIntFormatInt(v.i, bits); } else { ParseUintFormatInt(v.i, bits); }
      assert FromStringToValue(lib, s, t) == Ok(Dyn(t, v));
    case Str =>
    case ErrIface =>
  }

  /** A struct field whose value is a boolean, integer or string of its
      declared type, or a non-nil error. */
  predicate TextField(f: Field) {
    TextValue(f.value, f.decl.typ)
  }

  /** The text `setValuesFromStruct` writes for such a field. */
  function Text(lib: Lib, f: Field): string
    requires TextField(f)
  {
    ScalarRoundTrip(lib, f.value, f.decl.typ);
    StringFromValue(lib, f.value, f.decl.typ).value
  }

  /** The field is bound to a parameter and is not dropped by `omitempty`. */
  predicate Emitted(f: Field) {
    FieldKey(f.decl).Some? && !(FieldKey(f.decl).value.omitEmpty && IsZero(f.value))
  }

  /** No two bound fields share a parameter name. */
  predicate DistinctFieldKeys(fields: seq<Field>) {
    forall i, j :: 0 <= i < j < |fields| && FieldKey(fields[i].decl).Some? && FieldKey(fields[j].decl).Some? ==>
      FieldKey(fields[i].decl).value.key != FieldKey(fields[j].decl).value.key
  }

  /** A text field is either left out or `Set` to its text. */
  lemma EncodeTextField(lib: Lib, f: Field, acc: Multimap)
    requires TextField(f)
    ensures EncodeField(lib, f, acc) ==
      if Emitted(f) then Ok(Set(acc, FieldKey(f.decl).value.key, Text(lib, f))) else Ok(acc)
  {
    ScalarRoundTrip(lib, f.value, f.decl.typ);
  }

  /** Walking text fields with distinct, fresh keys writes exactly the
      emitted fields, each as a one-element list holding its text. */
  lemma {:induction false} EncodeTextFields(lib: Lib, fields: seq<Field>, acc: Multimap)
    requires forall i :: 0 <= i < |fields| ==> TextField(fields[i])
    requires DistinctFieldKeys(fields)
    requires forall i :: 0 <= i < |fields| && FieldKey(fields[i].decl).Some? ==> FieldKey(fields[i].decl).value.key !in acc
    ensures EncodeFields(lib, fields, acc).Ok?
    ensures forall i :: 0 <= i < |fields| && FieldKey(fields[i].decl).Some? ==>
      var m := EncodeFields(lib, fields, acc).value;
      (FieldKey(fields[i].decl).value.key in m <==> Emitted(fields[i]))
      && (Emitted(fields[i]) ==> m[FieldKey(fields[i].decl).value.key] == [Text(lib, fields[i])])
    decreases |fields|
  {
    if fields != [] {
      var f := fields[0];
      var rest := fields[1..];
      assert forall i :: 0 <= i < |rest| ==> rest[i] == fields[i + 1];
      EncodeTextField(lib, f, acc);
      var m := EncodeField(lib, f, acc).value;
      forall i | 0 <= i < |rest| && FieldKey(rest[i].decl).Some?
        ensures FieldKey(rest[i].decl).value.key !in m
      {
        assert FieldKey(fields[i + 1].decl).value.key !in acc;
      }
      EncodeTextFields(lib, rest, m);
      var r := EncodeFields(lib, rest, m).value;
      assert EncodeFields(lib, fields, acc) == Ok(r);
      if FieldKey(f.decl).Some? {
        var k := FieldKey(f.decl).value.key;
        assert NotAFieldKey(rest, k) by {
          forall i | 0 <= i < |rest| && FieldKey(rest[i].decl).Some?
            ensures FieldKey(rest[i].decl).value.key != k
          {
            assert fields[0 + 1 + i] == rest[i];
          }
        }
        EncodeFieldsLeavesOtherKeys(lib, rest, m, k);
      }
      forall i | 0 <= i < |fields| && FieldKey(fields[i].decl).Some?
        ensures (FieldKey(fields[i].decl).value.key in r <==> Emitted(fields[i]))
          && (Emitted(fields[i]) ==> r[FieldKey(fields[i].decl).value.key] == [Text(lib, fields[i])])
      {
        if i > 0 { assert fields[i] == rest[i - 1]; }
      }
    }
  }

  /** The declarations of a struct's fields. */
  function Decls(fields: seq<Field>): (r: seq<FieldDecl>)
    ensures |r| == |fields| && forall i :: 0 <= i < |fields| ==> r[i] == fields[i].decl
  {
    seq(|fields|, i requires 0 <= i < |fields| => fields[i].decl)
  }

  /** What decoding can give back: every bound field's value, and the
      zero value for the fields no parameter is bound to. */
  function Recoverable(fields: seq<Field>): (r: seq<Value>)
    ensures |r| == |fields|
    ensures forall i :: 0 <= i < |fields| ==>
      r[i] == if FieldKey(fields[i].decl).Some? then fields[i].value else ZeroOf(fields[i].decl.typ)
  {
    seq(|fields|, i requires 0 <= i < |fields| =>
      if FieldKey(fields[i].decl).Some? then fields[i].value else ZeroOf(fields[i].decl.typ))
  }

  /** A struct of boolean, integer and string fields with distinct
      parameter names survives `setValuesFromStruct` followed by
      `unmarshalStruct`: every bound field comes back, `omitempty` zeros
      included, and the ignored fields come back zero. */
  lemma {:induction false} StructRoundTrip(lib: Lib, fields: seq<Field>)
    requires forall i :: 0 <= i < |fields| ==> TextField(fields[i])
    requires DistinctFieldKeys(fields)
    ensures EncodeFields(lib, fields, map[]).Ok?
    ensures UnmarshalStruct(lib, EncodeFields(lib, fields, map[]).value, Decls(fields)) == Ok(Recoverable(fields))
  {
    EncodeTextFields(lib, fields, map[]);
    var values := EncodeFields(lib, fields, map[]).value;
    var decls := Decls(fields);
    forall j | 0 <= j < |decls| && Bound(values, decls[j])
      ensures FromStringsToValue(lib, values[FieldKey(decls[j]).value.key], decls[j].typ) == Ok(fields[j].value)
    {
      ScalarRoundTrip(lib, fields[j].value, fields[j].decl.typ);
    }
    var u := UnmarshalStruct(lib, values, decls);
    assert u.Ok?;
    forall j | 0 <= j < |fields|
      ensures u.value[j] == Recoverable(fields)[j]
    {
      if FieldKey(decls[j]).Some? && !Bound(values, decls[j]) {
        ZeroIsUnique(fields[j].value, fields[j].decl.typ);
      } else if Bound(values, decls[j]) {
        assert WellFormed(decls[j].typ);
      }
    }
    assert u.value == Recoverable(fields);
  }

  /** The same through the two entry points: `MarshalURLValues` of the
      struct, then `UnmarshalURLValues` into a pointer to a struct of the
      same type, whatever it held before. */
  lemma StructEntryPointsRoundTrip(lib: Lib, fields: seq<Field>, previous: seq<Value>)
    requires forall i :: 0 <= i < |fields| ==> TextField(fields[i])
    requires DistinctFieldKeys(fields)
    ensures var m := MarshalURLValues(lib, StructArg(fields));
      m.err.None? && UnmarshalURLValues(lib, m.values, StructDest(Decls(fields), Some(previous)))
        == Unmarshaled(StructDest(Decls(fields), Some(Recoverable(fields))), None)
  {
    StructRoundTrip(lib, fields);
  }
}
