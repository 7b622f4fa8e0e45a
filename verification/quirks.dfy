/** Behaviours of the two engines that a reader of their documentation
    might not expect, each stated on the smallest input that shows it. */
module Quirks {
  import opened GoResults
  import opened GoStrings
  import opened GoStrconv
  import opened Reflect
  import opened Codec
  import opened TagParser
  import opened UrlMarshal
  import opened UrlUnmarshal

  /** A struct field holding a non-nil pointer to a zero scalar is not
      written: after the pointer is followed, the zero is formatted
      against the field's pointer type, whose zero text is the skip
      sentinel. */
  lemma PointerToZeroFieldIsDropped(lib: Lib, f: Field, acc: Multimap)
    requires f.decl.typ.Ptr? && f.value.PtrV? && f.value.target.Some?
    requires IsZero(f.value.target.value) && ElementsOf(f.value.target.value).None?
    ensures EncodeField(lib, f, acc) == Ok(acc)
  {
  }

  /** The same pointer as a map entry is written as the text of the zero
      it points at. */
  lemma PointerToZeroEntryIsWritten(lib: Lib)
    ensures EntryValues(lib, Dyn(Ptr(Int(0, true, false)), PtrV(Some(IntV(0))))) == Some(["0"])
  {
    assert Digits(0) == [DigitChar(0)];
  }

  /** Hence a `*int` field pointing at 0 comes back nil. */
  lemma PointerToZeroDoesNotRoundTrip(lib: Lib)
    ensures var d := FieldDecl("N", true, None, Ptr(Int(0, true, false)));
      EncodeFields(lib, [Field(d, PtrV(Some(IntV(0))))], map[]) == Ok(map[])
      && UnmarshalStruct(lib, map[], [d]) == Ok([PtrV(None)])
  {
    var d := FieldDecl("N", true, None, Ptr(Int(0, true, false)));
    PointerToZeroFieldIsDropped(lib, Field(d, PtrV(Some(IntV(0)))), map[]);
    var u := UnmarshalStruct(lib, map[], [d]);
    assert !Bound(map[], d);
    assert u.value == [PtrV(None)] by {
      assert u.value[0] == ZeroOf(d.typ);
    }
  }

  /** A nil `error` field is written as "" (the zero text of `error`) and
      comes back as `errors.New("")`, which is not nil. */
  lemma NilErrorComesBackEmpty(lib: Lib)
    ensures StringFromValue(lib, ErrV(None), ErrIface) == Ok("")
    ensures FromStringsToValue(lib, [""], ErrIface) == Ok(ErrV(Some("")))
  {
  }

  /** A field of a named integer type (such as `time.Duration`) is never
      decoded: the parsed integer has the predeclared type, which is not
      assignable to the field, whatever the text. */
  lemma NamedIntIsRejected(lib: Lib, s: string, bits: nat, signed: bool)
    requires FromStringToValue(lib, s, Int(bits, signed, false)).Ok?
    ensures FromStringToValue(lib, s, Int(bits, signed, true)) == FromStringToValue(lib, s, Int(bits, signed, false))
    ensures FromStringsToValue(lib, [s], Int(bits, signed, true))
      == Err(NotAssignable(Int(bits, signed, false), Int(bits, signed, true)))
  {
  }

  /** In a slice of a named integer type, though, zero elements are
      accepted: the element loop skips a zero before it checks the type. */
  lemma NamedIntSliceKeepsOnlyZeros(lib: Lib)
    ensures FromStringsToValue(lib, ["0"], Slice(Int(64, true, true))) == Ok(SliceV(Some([IntV(0)])))
    ensures FromStringsToValue(lib, ["1"], Slice(Int(64, true, true)))
      == Err(NotAssignable(Int(64, true, false), Int(64, true, true)))
  {
    var e := Int(64, true, true);
    assert Digits(0) == [DigitChar(0)];
    assert Digits(1) == [DigitChar(1)];
    ParseIntFormatInt(0, 64);
    ParseIntFormatInt(1, 64);
    assert FromStringToValue(lib, "0", e) == Ok(Dyn(Int(64, true, false), IntV(0)));
    assert Zeros(1, e) == [IntV(0)];
    assert DecodeElements(lib, ["0"], e, Zeros(1, e), 0) == DecodeElements(lib, ["0"], e, Zeros(1, e), 1);
  }

  /** A boolean map entry decodes back to the same boolean. */
  lemma MapBoolRoundTrip(lib: Lib, b: bool)
    ensures EntryValues(lib, Dyn(Bool, BoolV(b))) == Some([FormatBool(b)])
    ensures UnmarshalMap(lib, map["k" := [FormatBool(b)]])["k"] == BoolV(b)
  {
  }

  /** A map entry holding the integer 1 comes back as `true`: "1" is one
      of the texts `strconv.ParseBool` accepts, and it is tried first. */
  lemma MapOneBecomesTrue(lib: Lib)
    ensures EntryValues(lib, Dyn(Int(0, true, false), IntV(1))) == Some(["1"])
    ensures UnmarshalMap(lib, map["k" := ["1"]])["k"] == BoolV(true)
  {
    assert Digits(1) == [DigitChar(1)];
  }

  /** The engines do not use the tag parser: for `name,join=''` the
      parser reports the name `name`, while both engines bind the field
      to the whole tag. */
  lemma EnginesIgnoreTagParser(name: string, typ: FieldType)
    requires name != "-" && ',' !in name
    requires !IsJoinOpener(name) && !IsOmitEmpty(name)
    ensures ParseTag(name + ",join=''") == Parsed(UrlValueTag(name, false, ""))
    ensures FieldKey(FieldDecl("F", true, Some(name + ",join=''"), typ)) == Some(ParamKey(name + ",join=''", false))
  {
    EmptyJoinTag(name);
    var tag := name + ",join=''";
    assert !HasSuffix(tag, OmitEmptySuffix) by {
      assert tag[|tag| - 1] == '\'';
    }
  }

  /** For a plain name both agree. */
  lemma PlainTagAgrees(name: string, typ: FieldType)
    requires name != "-" && ',' !in name
    requires !IsJoinOpener(name) && !IsOmitEmpty(name)
    ensures ParseTag(name) == Parsed(UrlValueTag(name, false, ""))
    ensures FieldKey(FieldDecl("F", true, Some(name), typ)) == Some(ParamKey(name, false))
  {
    NoJoinTag(name);
  }
}
