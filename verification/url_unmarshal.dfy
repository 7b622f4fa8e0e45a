/** `UnmarshalURLValues`: decoding `url.Values` into a `map[string]any`
    or into the fields of a struct. */
module UrlUnmarshal {
  import opened GoResults
  import opened GoStrings
  import opened GoStrconv
  import opened Reflect
  import opened Codec

  /** `fromStringToAny(s)`, the decoding used for maps: a boolean if
      `strconv.ParseBool` accepts `s`, else a `float64`, else a
      `complex128`, else an RFC 3339 time, else the text itself. */
  function FromStringToAny(lib: Lib, s: string): (r: Value)
    ensures s in TrueTokens + FalseTokens ==> r == BoolV(s in TrueTokens)
    ensures r.BoolV? ==> s in TrueTokens + FalseTokens
    ensures r.FloatV? <==> s !in TrueTokens + FalseTokens && lib.parseFloat(s, 64).Some?
    ensures r.ComplexV? <==> s !in TrueTokens + FalseTokens && lib.parseFloat(s, 64).None?
                             && lib.parseComplex(s, 128).Some?
    ensures r.StrV? ==> r == StrV(s)
    ensures r.TimeV? <==> s !in TrueTokens + FalseTokens && lib.parseFloat(s, 64).None?
                          && lib.parseComplex(s, 128).None? && lib.parseTime(s).Some?
    ensures r.StrV? <==> s !in TrueTokens + FalseTokens && lib.parseFloat(s, 64).None?
                         && lib.parseComplex(s, 128).None? && lib.parseTime(s).None?
    ensures r.FloatV? ==> r == FloatV(64, lib.parseFloat(s, 64).value)
    ensures r.ComplexV? ==> r == ComplexV(128, lib.parseComplex(s, 128).value.0, lib.parseComplex(s, 128).value.1)
    ensures r.TimeV? ==> r == TimeV(lib.parseTime(s).value)
  {
    var b := ParseBool(s);
    if b.Ok? then BoolV(b.value)
    else
      var f := lib.parseFloat(s, 64);
      if f.Some? then FloatV(64, f.value)
      else
        var c := lib.parseComplex(s, 128);
        if c.Some? then ComplexV(128, c.value.0, c.value.1)
        else
          var t := lib.parseTime(s);
          if t.Some? then TimeV(t.value) else StrV(s)
  }

  /** What one parameter becomes in the map: a single value is decoded on
      its own, any other number of values (none included) becomes a
      `[]any` of the decoded values in order. */
  function DecodeEntry(lib: Lib, vs: seq<string>): (r: Value)
    ensures |vs| != 1 ==> r.SliceV? && r.items.Some? && |r.items.value| == |vs|
    ensures |vs| != 1 ==> forall i :: 0 <= i < |vs| ==> r.items.value[i] == FromStringToAny(lib, vs[i])
  {
    if |vs| == 1 then FromStringToAny(lib, vs[0])
    else SliceV(Some(seq(|vs|, i requires 0 <= i < |vs| => FromStringToAny(lib, vs[i]))))
  }

  /** `unmarshalMap(values)`: a fresh map with one entry per parameter. */
  function UnmarshalMap(lib: Lib, values: Multimap): (r: map<string, Value>)
    ensures r.Keys == values.Keys
    ensures forall k :: k in values ==> r[k] == DecodeEntry(lib, values[k])
    ensures forall k :: k in values && |values[k]| == 1 ==> r[k] == FromStringToAny(lib, values[k][0])
  {
    map k | k in values :: DecodeEntry(lib, values[k])
  }

  /** The type `fromStringToValue` produces for `t`: integer kinds come
      back as the predeclared type of their width, whatever `t` is named. */
  function Decoded(t: FieldType): FieldType {
    if t.Int? then Int(t.bits, t.signed, false) else t
  }

  /** The integer cases of `fromStringToValue`: `strconv.Atoi` for `int`,
      `strconv.ParseInt` for the sized signed kinds and
      `strconv.ParseUint` for the unsigned ones, all in base 10.  For the
      widths Go has, the text is accepted exactly when it is decimal (with
      an optional sign for signed kinds) and its value fits the width. */
  function DecodeInt(s: string, bits: nat, signed: bool): (r: Result<int, Error>)
    ensures r.Err? ==> r.error.NumError?
    ensures bits in {0, 8, 16, 32, 64} ==>
      (r.Ok? <==> if signed then IsSignedDecimal(s) && InRange(SignedValue(s), bits, true)
                  else IsDecimal(s) && InRange(DecimalValue(s), bits, false))
    ensures bits in {0, 8, 16, 32, 64} && r.Ok? ==>
      r.value == (if signed then SignedValue(s) else DecimalValue(s))
  {
    if signed then
      var n := if bits == 0 then Atoi(s) else ParseInt(s, bits);
      if n.Ok? then Ok(n.value) else Err(NumError(n.error))
    else
      var n := ParseUint(s, bits);
      if n.Ok? then Ok(n.value) else Err(NumError(n.error))
  }

  /** `fromStringToValue(s, t)`: `s` parsed as a value of type `t`, with
      the type the result carries.  Strings are taken as they are,
      integers through `strconv` at the kind's width, an `error` becomes
      `errors.New(s)`; containers, channels and other kinds are
      unsupported.  A pointer type decodes its element and points at it;
      when the element comes back with another type (a named integer),
      `reflect.Value.Set` panics. */
  function FromStringToValue(lib: Lib, s: string, t: FieldType): (r: Result<Dyn, Error>)
    ensures r.Ok? ==> r.value.typ == Decoded(t)
    ensures WellFormed(t) && r.Ok? ==> HasType(r.value.val, t)
    ensures t.Slice? || t.Array? || t.Chan? || t.Opaque? ==> r == Err(UnsupportedType)
    ensures t.Str? ==> r == Ok(Dyn(Str, StrV(s)))
    ensures t.ErrIface? ==> r == Ok(Dyn(ErrIface, ErrV(Some(s))))
    ensures t.Ptr? && r.Ok? ==> r.value.val.PtrV? && r.value.val.target.Some?
    ensures r.Err? ==> r.error != ErrSkip
    decreases t
  {
    match t
    case Str => Ok(Dyn(Str, StrV(s)))
    case Bool =>
      var b := ParseBool(s);
      if b.Ok? then Ok(Dyn(Bool, BoolV(b.value))) else Err(NumError(b.error))
    case Complex(w) =>
      var c := lib.parseComplex(s, w);
      if c.Some? then Ok(Dyn(t, ComplexV(w, c.value.0, c.value.1))) else Err(ParseFailed)
    case Float(w) =>
      var f := lib.parseFloat(s, w);
      if f.Some? then Ok(Dyn(t, FloatV(w, f.value))) else Err(ParseFailed)
    case Int(bits, signed, _) =>
      var n := DecodeInt(s, bits, signed);
      if n.Ok? then Ok(Dyn(Int(bits, signed, false), IntV(n.value))) else Err(n.error)
    case Ptr(e) =>
      var inner := FromStringToValue(lib, s, e);
      if inner.Err? then Err(inner.error)
      else if inner.value.typ != e then Err(Panic)
      else Ok(Dyn(t, PtrV(Some(inner.value.val))))
    case Time =>
      var tm := lib.parseTime(s);
      if tm.Some? then Ok(Dyn(Time, TimeV(tm.value))) else Err(ParseFailed)
    case ErrIface => Ok(Dyn(ErrIface, ErrV(Some(s))))
    case _ => Err(UnsupportedType)
  }

  /** The texts a boolean field accepts are exactly the twelve
      `strconv.ParseBool` spellings, and the value is their truth value. */
  lemma BoolTexts(lib: Lib, s: string)
    ensures FromStringToValue(lib, s, Bool).Ok? <==> s in TrueTokens + FalseTokens
    ensures FromStringToValue(lib, s, Bool).Ok? ==> FromStringToValue(lib, s, Bool).value.val == BoolV(s in TrueTokens)
  {
  }

  /** The texts an integer field accepts are exactly the decimal texts
      (with an optional sign for signed kinds) whose value fits the kind;
      the value decoded is the one the text denotes.  Anything else, out
      of range or not decimal, fails. */
  lemma IntTexts(lib: Lib, s: string, t: FieldType)
    requires t.Int? && WellFormed(t)
    ensures var r := FromStringToValue(lib, s, t);
      (r.Ok? <==> if t.signed then IsSignedDecimal(s) && InRange(SignedValue(s), t.bits, true)
                  else IsDecimal(s) && InRange(DecimalValue(s), t.bits, false))
      && (r.Ok? ==> r.value.val == IntV(if t.signed then SignedValue(s) else DecimalValue(s)))
  {
  }

  /** A pointer type decodes its element type and points at the result:
      it succeeds exactly when the element decodes to a value of exactly
      the element type, and the pointer then holds that value. */
  lemma PointerDecodesTarget(lib: Lib, s: string, e: FieldType)
    ensures var r := FromStringToValue(lib, s, Ptr(e));
      var inner := FromStringToValue(lib, s, e);
      (r.Ok? <==> inner.Ok? && inner.value.typ == e)
      && (r.Ok? ==> r.value == Dyn(Ptr(e), PtrV(Some(inner.value.val))))
      && (inner.Err? ==> r == Err(inner.error))
  {
  }

  /** Whether the element loop of `fromStringsToValue` accepts `s` for
      an element of type `e`: it decodes, and a non-zero result has
      exactly the element type. */
  predicate ElementDecodes(lib: Lib, s: string, e: FieldType) {
    var d := FromStringToValue(lib, s, e);
    d.Ok? && (IsZero(d.value.val) || d.value.typ == e)
  }

  /** What the element loop leaves at a position it visits: the decoded
      value, or the old one when the decoded value is zero. */
  function Placed(lib: Lib, s: string, e: FieldType, previous: Value): Value
    requires ElementDecodes(lib, s, e)
  {
    var d := FromStringToValue(lib, s, e).value;
    if IsZero(d.val) then previous else d.val
  }

  /** The element loop of `fromStringsToValue`, from position `i`: each
      of `vals` is decoded into the same position of `cur`. */
  function DecodeElements(lib: Lib, vals: seq<string>, e: FieldType, cur: seq<Value>, i: nat)
    : (r: Result<seq<Value>, Error>)
    requires i <= |vals| <= |cur|
    ensures r.Ok? <==> forall j :: i <= j < |vals| ==> ElementDecodes(lib, vals[j], e)
    ensures r.Ok? ==> |r.value| == |cur|
    ensures r.Ok? ==> forall j :: 0 <= j < |cur| && !(i <= j < |vals|) ==> r.value[j] == cur[j]
    ensures r.Ok? ==> forall j :: i <= j < |vals| ==> r.value[j] == Placed(lib, vals[j], e, cur[j])
    ensures r.Err? ==> r.error != ErrSkip
    decreases |vals| - i
  {
    if i == |vals| then Ok(cur)
    else
      var d := FromStringToValue(lib, vals[i], e);
      if d.Err? then Err(d.error)
      else if IsZero(d.value.val) then DecodeElements(lib, vals, e, cur, i + 1)
      else if d.value.typ != e then Err(NotAssignable(d.value.typ, e))
      else DecodeElements(lib, vals, e, cur[i := d.value.val], i + 1)
  }

  function Min(a: nat, b: nat): nat {
    if a <= b then a else b
  }

  /** The body of `fromStringsToValue` once a pointer type has been
      replaced by its element type `rt`. */
  function DecodeTarget(lib: Lib, vals: seq<string>, rt: FieldType): (r: Result<Value, Error>)
    requires |vals| > 0
    ensures r.Err? ==> r.error != ErrSkip
    ensures WellFormed(rt) && r.Ok? ==> HasType(r.value, rt)
  {
    if rt.Slice? then
      var r := DecodeElements(lib, vals, rt.elem, Zeros(|vals|, rt.elem), 0);
      if r.Ok? then Ok(SliceV(Some(r.value))) else Err(r.error)
    else if rt.Array? then
      var r := DecodeElements(lib, vals[..Min(rt.len, |vals|)], rt.elem, Zeros(rt.len, rt.elem), 0);
      if r.Ok? then Ok(ArrayV(r.value)) else Err(r.error)
    else if rt.Str? then Ok(StrV(vals[0]))
    else
      var d := FromStringToValue(lib, vals[0], rt);
      if d.Err? then Err(d.error)
      else if d.value.typ != rt then Err(NotAssignable(d.value.typ, rt))
      else Ok(d.value.val)
  }

  /** `fromStringsToValue(values, fieldType)`: no values is the skip
      sentinel; a slice takes one element per value, an array as many as
      fit, a string the first value, anything else the first value
      decoded; a pointer type gets a fresh pointer to the result. */
  function FromStringsToValue(lib: Lib, vals: seq<string>, ft: FieldType): (r: Result<Value, Error>)
    ensures |vals| == 0 <==> r == Err(ErrSkip)
    ensures ft.Ptr? && r.Ok? ==> r.value.PtrV? && r.value.target.Some?
    ensures WellFormed(ft) && r.Ok? ==> HasType(r.value, ft)
  {
    if |vals| == 0 then Err(ErrSkip)
    else
      var inner := DecodeTarget(lib, vals, if ft.Ptr? then ft.elem else ft);
      if inner.Err? then Err(inner.error)
      else if ft.Ptr? then Ok(PtrV(Some(inner.value)))
      else inner
  }

  /** A pointer field is decoded as its element type would be, and
      receives a fresh pointer to the result; its errors are the
      element's. */
  lemma PointerFieldDecodesTarget(lib: Lib, vals: seq<string>, e: FieldType)
    requires !e.Ptr?
    ensures var r := FromStringsToValue(lib, vals, Ptr(e));
      var inner := FromStringsToValue(lib, vals, e);
      (r.Ok? <==> inner.Ok?)
      && (r.Ok? ==> r.value == PtrV(Some(inner.value)))
      && (inner.Err? ==> r == inner)
  {
  }

  /** A field that is not a sequence, nor a pointer to one, reads only
      the first of its values; a string takes it as it is. */
  lemma FirstValueOnly(lib: Lib, vals: seq<string>, t: FieldType)
    requires |vals| > 0
    requires var rt := if t.Ptr? then t.elem else t; !rt.Slice? && !rt.Array?
    ensures FromStringsToValue(lib, vals, t) == FromStringsToValue(lib, [vals[0]], t)
    ensures t.Str? ==> FromStringsToValue(lib, vals, t) == Ok(StrV(vals[0]))
  {
  }

  /** Decoding into zeros: every visited position holds the decoding of
      its value (a decoded zero is the zero already there), and the
      positions after them stay zero. */
  lemma DecodeIntoZeros(lib: Lib, vals: seq<string>, e: FieldType, n: nat)
    requires WellFormed(e) && |vals| <= n
    requires DecodeElements(lib, vals, e, Zeros(n, e), 0).Ok?
    ensures var xs := DecodeElements(lib, vals, e, Zeros(n, e), 0).value;
      |xs| == n
      && (forall j :: 0 <= j < |vals| ==>
            FromStringToValue(lib, vals[j], e).Ok? && xs[j] == FromStringToValue(lib, vals[j], e).value.val)
      && (forall j :: |vals| <= j < n ==> xs[j] == ZeroOf(e))
  {
    var xs := DecodeElements(lib, vals, e, Zeros(n, e), 0).value;
    forall j | 0 <= j < |vals|
      ensures xs[j] == FromStringToValue(lib, vals[j], e).value.val
    {
      assert xs[j] == Placed(lib, vals[j], e, ZeroOf(e));
      var d := FromStringToValue(lib, vals[j], e).value;
      if IsZero(d.val) { ZeroIsUnique(d.val, e); }
    }
  }

  /** A slice receives one element per value, element `j` being the
      decoding of value `j` (a decoded zero leaves the zero the slice was
      made with, which is the same value). */
  lemma {:induction false} SliceDecodeIsElementwise(lib: Lib, vals: seq<string>, e: FieldType)
    requires WellFormed(e)
    requires FromStringsToValue(lib, vals, Slice(e)).Ok?
    ensures var v := FromStringsToValue(lib, vals, Slice(e)).value;
      v.SliceV? && v.items.Some? && |v.items.value| == |vals|
      && forall j :: 0 <= j < |vals| ==>
           FromStringToValue(lib, vals[j], e).Ok? && v.items.value[j] == FromStringToValue(lib, vals[j], e).value.val
  {
    DecodeIntoZeros(lib, vals, e, |vals|);
  }

  /** An array of length `n` receives the first `min(n, |vals|)` values;
      the positions after them keep their zero value. */
  lemma {:induction false} ArrayDecodeFills(lib: Lib, vals: seq<string>, n: nat, e: FieldType)
    requires WellFormed(e)
    requires FromStringsToValue(lib, vals, Array(n, e)).Ok?
    ensures var v := FromStringsToValue(lib, vals, Array(n, e)).value;
      v.ArrayV? && |v.elems| == n
      && (forall j :: 0 <= j < Min(n, |vals|) ==>
            FromStringToValue(lib, vals[j], e).Ok? && v.elems[j] == FromStringToValue(lib, vals[j], e).value.val)
      && (forall j :: Min(n, |vals|) <= j < n ==> v.elems[j] == ZeroOf(e))
  {
    var taken := vals[..Min(n, |vals|)];
    assert FromStringsToValue(lib, vals, Array(n, e))
      == Ok(ArrayV(DecodeElements(lib, taken, e, Zeros(n, e), 0).value));
    DecodeIntoZeros(lib, taken, e, n);
    assert forall j :: 0 <= j < |taken| ==> taken[j] == vals[j];
  }

  /** The field loop of `unmarshalStruct`, from field `i`, over the field
      values `acc` built so far.  A field bound to a parameter that is
      present gets the decoding of its values, unless it is `omitempty`
      and that decoding is zero; the first decoding error ends the loop.
      `unmarshalStruct` also checks that each decoded value can be set
      and is assignable to the field; both always hold here (see
      `FromStringsToValue`), so neither check is written out. */
  function DecodeFields(lib: Lib, values: Multimap, decls: seq<FieldDecl>, acc: seq<Value>, i: nat)
    : (r: Result<seq<Value>, Error>)
    requires |acc| == |decls| && i <= |decls|
    ensures r.Ok? <==> forall j :: i <= j < |decls| && Bound(values, decls[j]) ==>
      FromStringsToValue(lib, values[FieldKey(decls[j]).value.key], decls[j].typ).Ok?
    ensures r.Ok? ==> |r.value| == |decls|
    ensures r.Ok? ==> forall j :: 0 <= j < |decls| && (j < i || !Bound(values, decls[j])) ==> r.value[j] == acc[j]
    ensures r.Ok? ==> forall j :: i <= j < |decls| && Bound(values, decls[j]) ==>
      var p := FromStringsToValue(lib, values[FieldKey(decls[j]).value.key], decls[j].typ).value;
      r.value[j] == if FieldKey(decls[j]).value.omitEmpty && IsZero(p) then acc[j] else p
    ensures r.Err? ==> exists j :: (i <= j < |decls| && Bound(values, decls[j])
      && FromStringsToValue(lib, values[FieldKey(decls[j]).value.key], decls[j].typ) == Err(r.error))
    decreases |decls| - i
  {
    if i == |decls| then Ok(acc)
    else if !Bound(values, decls[i]) then DecodeFields(lib, values, decls, acc, i + 1)
    else
      var pk := FieldKey(decls[i]).value;
      var p := FromStringsToValue(lib, values[pk.key], decls[i].typ);
      if p.Err? then Err(p.error)
      else if pk.omitEmpty && IsZero(p.value) then DecodeFields(lib, values, decls, acc, i + 1)
      else DecodeFields(lib, values, decls, acc[i := p.value], i + 1)
  }

  /** A field takes part in decoding: it is exported, not tagged `-`,
      and its parameter is present (`values.Has`). */
  predicate Bound(values: Multimap, d: FieldDecl) {
    FieldKey(d).Some? && FieldKey(d).value.key in values
  }

  function ZeroFields(decls: seq<FieldDecl>): (r: seq<Value>)
    ensures |r| == |decls| && forall j :: 0 <= j < |decls| ==> r[j] == ZeroOf(decls[j].typ)
  {
    seq(|decls|, j requires 0 <= j < |decls| => ZeroOf(decls[j].typ))
  }

  /** `unmarshalStruct(values, structType)`: a fresh zero struct whose
      bound fields are decoded.  Unbound fields stay zero; a bound field
      holds the decoding of its values (an `omitempty` field whose
      decoding is zero holds that same zero). */
  function UnmarshalStruct(lib: Lib, values: Multimap, decls: seq<FieldDecl>): (r: Result<seq<Value>, Error>)
    ensures r.Ok? <==> forall j :: 0 <= j < |decls| && Bound(values, decls[j]) ==>
      FromStringsToValue(lib, values[FieldKey(decls[j]).value.key], decls[j].typ).Ok?
    ensures r.Ok? ==> |r.value| == |decls|
    ensures r.Ok? ==> forall j :: 0 <= j < |decls| && !Bound(values, decls[j]) ==> r.value[j] == ZeroOf(decls[j].typ)
    ensures r.Ok? ==> forall j :: 0 <= j < |decls| && Bound(values, decls[j]) && WellFormed(decls[j].typ) ==>
      r.value[j] == FromStringsToValue(lib, values[FieldKey(decls[j]).value.key], decls[j].typ).value
  {
    OmittedZeroIsDecoding(lib, values, decls);
    DecodeFields(lib, values, decls, ZeroFields(decls), 0)
  }

  /** Skipping an `omitempty` field whose decoding is zero leaves the
      field's zero value, which is that decoding. */
  lemma {:induction false} OmittedZeroIsDecoding(lib: Lib, values: Multimap, decls: seq<FieldDecl>)
    ensures var r := DecodeFields(lib, values, decls, ZeroFields(decls), 0);
      r.Ok? ==> forall j :: 0 <= j < |decls| && Bound(values, decls[j]) && WellFormed(decls[j].typ) ==>
        r.value[j] == FromStringsToValue(lib, values[FieldKey(decls[j]).value.key], decls[j].typ).value
  {
    var r := DecodeFields(lib, values, decls, ZeroFields(decls), 0);
    if r.Ok? {
      forall j | 0 <= j < |decls| && Bound(values, decls[j]) && WellFormed(decls[j].typ)
        ensures r.value[j] == FromStringsToValue(lib, values[FieldKey(decls[j]).value.key], decls[j].typ).value
      {
        var p := FromStringsToValue(lib, values[FieldKey(decls[j]).value.key], decls[j].typ).value;
        if IsZero(p) { ZeroIsUnique(p, decls[j].typ); }
      }
    }
  }

  /** `UnmarshalURLValues`'s destination, by the case its checks pick:
      nil, a `*map[string]any` (nil, or pointing at a map), a pointer or
      non-pointer implementing `URLValuesUnmarshaler` (with the error its
      method returns for these values), a `*struct` (nil, or pointing at
      the current field values), a pointer to anything else, or a
      non-pointer. */
  datatype Dest =
    | NilDest
    | MapDest(target: Option<map<string, Value>>)
    | UnmarshalerDest(isPointer: bool, hookErr: Option<Error>)
    | StructDest(decls: seq<FieldDecl>, fields: Option<seq<Value>>)
    | OtherPointerDest
    | NonPointerDest

  /** The destination after the call, and the error returned. */
  datatype Unmarshaled = Unmarshaled(dest: Dest, err: Option<Error>)

  /** `UnmarshalURLValues(values, a)`.  A map is replaced by a fresh
      decoding of every parameter; a struct is replaced by a fresh
      decoding of its bound fields, or left as it was when any field
      fails; a hook's error is returned as it is.  On every error the
      destination is unchanged, except through a hook, whose effect on
      its receiver is not modelled. */
  function UnmarshalURLValues(lib: Lib, values: Multimap, dest: Dest): (r: Unmarshaled)
    ensures r.err.Some? ==> r.dest == dest
    ensures dest.NilDest? ==> r.err == Some(NilDestination)
    ensures dest.MapDest? && dest.target.Some? ==>
      r.err.None? && r.dest == MapDest(Some(UnmarshalMap(lib, values)))
      && r.dest.target.value.Keys == values.Keys
    ensures dest.UnmarshalerDest? ==>
      r.err == if dest.isPointer then dest.hookErr else Some(BadDestination)
    ensures dest.StructDest? && dest.fields.Some? ==>
      (r.err.None? <==> UnmarshalStruct(lib, values, dest.decls).Ok?)
    ensures dest.StructDest? && r.err.None? ==>
      UnmarshalStruct(lib, values, dest.decls).Ok? && r.dest == StructDest(dest.decls, Some(UnmarshalStruct(lib, values, dest.decls).value))
    ensures dest.OtherPointerDest? ==> r.err == Some(NotAStruct)
    ensures dest.NonPointerDest? ==> r.err == Some(BadDestination)
  {
    match dest
    case NilDest => Unmarshaled(dest, Some(NilDestination))
    case MapDest(None) => Unmarshaled(dest, Some(Panic))
    case MapDest(Some(_)) => Unmarshaled(MapDest(Some(UnmarshalMap(lib, values))), None)
    case UnmarshalerDest(isPointer, hookErr) =>
      Unmarshaled(dest, if isPointer then hookErr else Some(BadDestination))
    case StructDest(decls, fields) =>
      var decoded := UnmarshalStruct(lib, values, decls);
      if decoded.Err? then Unmarshaled(dest, Some(decoded.error))
      else if fields.None? then Unmarshaled(dest, Some(Panic))
      else Unmarshaled(StructDest(decls, Some(decoded.value)), None)
    case OtherPointerDest => Unmarshaled(dest, Some(NotAStruct))
    case NonPointerDest => Unmarshaled(dest, Some(BadDestination))
  }

  /** A parameter that is present with no values fails the whole
      decoding with the skip sentinel, and the destination keeps its
      fields. */
  lemma EmptyListFailsStruct(lib: Lib, values: Multimap, d: FieldDecl, fields: Option<seq<Value>>)
    requires Bound(values, d) && values[FieldKey(d).value.key] == []
    ensures UnmarshalStruct(lib, values, [d]) == Err(ErrSkip)
    ensures UnmarshalURLValues(lib, values, StructDest([d], fields)) == Unmarshaled(StructDest([d], fields), Some(ErrSkip))
  {
    assert DecodeFields(lib, values, [d], ZeroFields([d]), 0) == Err(ErrSkip);
  }
}
