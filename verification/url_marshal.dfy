/** `MarshalURLValues`: turning a map, a struct or a pointer to a struct
    into `url.Values`. */
module UrlMarshal {
  import opened GoResults
  import opened GoStrings
  import opened GoStrconv
  import opened Reflect
  import opened Codec

  /** `zeroValue(t)`: the text of the zero value of `t`.  Container,
      channel and pointer types have none (the skip sentinel); kinds the
      function does not know are an error. */
  function ZeroValue(lib: Lib, t: FieldType): (r: Result<string, Error>)
    ensures r == Err(ErrSkip) <==> t.Array? || t.Chan? || t.Ptr? || t.Slice?
    ensures r == Err(InvalidType) <==> t.Opaque?
    ensures r.Ok? <==> t.Bool? || t.Int? || t.Str? || t.Float? || t.Complex? || t.Time? || t.ErrIface?
    ensures t.Bool? ==> r == Ok("false")
    ensures t.Int? || t.Float? || t.Complex? ==> r == Ok("0")
    ensures t.Str? || t.ErrIface? ==> r == Ok("")
    ensures t.Time? ==> r == Ok(lib.formatTime(ZeroInstant))
  {
    match t
    case Array(_, _) => Err(ErrSkip)
    case Chan => Err(ErrSkip)
    case Ptr(_) => Err(ErrSkip)
    case Slice(_) => Err(ErrSkip)
    case Bool => Ok("false")
    case Complex(_) => Ok("0")
    case Float(_) => Ok("0")
    case Int(_, _, _) => Ok("0")
    case Str => Ok("")
    case Time => Ok(lib.formatTime(ZeroInstant))
    case ErrIface => Ok("")
    case Opaque => Err(InvalidType)
  }

  /** The kind switch of `stringFromValue` on a non-zero value, after the
      pointer, if any, has been followed. */
  function FormatKind(lib: Lib, w: Value): (r: Result<string, Error>)
    ensures r.Ok? <==> w.BoolV? || w.ComplexV? || w.FloatV? || w.IntV? || w.StrV? || w.TimeV?
                       || (w.ErrV? && w.message.Some?)
    ensures r.Err? ==> r.error == UnsupportedType
    ensures w.BoolV? ==> r == Ok(if w.b then "true" else "false")
    ensures w.IntV? ==> r == Ok(FormatInt(w.i))
    ensures w.StrV? ==> r == Ok(w.s)
    ensures w.ErrV? && w.message.Some? ==> r == Ok(w.message.value)
    ensures w.FloatV? ==> r == Ok(lib.formatFloat(w.width, w.bits))
    ensures w.ComplexV? ==> r == Ok(lib.formatComplex(w.cwidth, w.re, w.im))
    ensures w.TimeV? ==> r == Ok(lib.formatTime(w.t))
  {
    match w
    case BoolV(b) => Ok(FormatBool(b))
    case ComplexV(cw, re, im) => Ok(lib.formatComplex(cw, re, im))
    case FloatV(fw, bits) => Ok(lib.formatFloat(fw, bits))
    case IntV(i) => Ok(FormatInt(i))
    case StrV(s) => Ok(s)
    case TimeV(t) => Ok(lib.formatTime(t))
    case ErrV(Some(m)) => Ok(m)
    case _ => Err(UnsupportedType)
  }

  /** `stringFromValue(v, t)`: a zero value is written as the zero of the
      static type `t`; otherwise one pointer is followed and the value
      formatted by kind. */
  function StringFromValue(lib: Lib, v: Value, t: FieldType): (r: Result<string, Error>)
    ensures IsZero(v) ==> r == ZeroValue(lib, t)
    ensures r == Err(ErrSkip) <==> IsZero(v) && (t.Array? || t.Chan? || t.Ptr? || t.Slice?)
    ensures !IsZero(v) && r.Err? ==> r.error == UnsupportedType
  {
    if IsZero(v) then ZeroValue(lib, t)
    else if v.PtrV? then FormatKind(lib, v.target.value)
    else FormatKind(lib, v)
  }

  /** The text of a non-zero value, after one pointer is followed: a
      boolean is `true` or `false`, an integer its decimal text, a string
      itself, an error its message; a pointer to a pointer, a container
      or another kind is unsupported. */
  lemma NonZeroTexts(lib: Lib, v: Value, t: FieldType)
    requires !IsZero(v)
    ensures var r := StringFromValue(lib, v, t);
      var w := if v.PtrV? then v.target.value else v;
      (w.BoolV? ==> r == Ok(if w.b then "true" else "false"))
      && (w.IntV? ==> r == Ok(FormatInt(w.i)))
      && (w.StrV? ==> r == Ok(w.s))
      && (w.ErrV? && w.message.Some? ==> r == Ok(w.message.value))
      && (w.PtrV? || w.SliceV? || w.ArrayV? || w.OtherV? || (w.ErrV? && w.message.None?) ==> r == Err(UnsupportedType))
  {
  }

  /** `stringFromConcrete(a)`: the type switch on the dynamic type, then
      `stringFromValue`.  Outside floats (formatted through `big.Float`),
      zero complex numbers (formatted rather than written "0") and the nil
      interface (on which the Go code panics), it agrees with
      `stringFromValue`. */
  function StringFromConcrete(lib: Lib, d: Dyn): (r: Result<string, Error>)
    ensures HasType(d.val, d.typ) && !d.typ.Float? && !(d.typ.Complex? && IsZero(d.val))
            && d.val != ErrV(None)
            ==> r == StringFromValue(lib, d.val, d.typ)
    ensures d.typ == ErrIface && d.val == ErrV(None) ==> r == Err(Panic)
    ensures d.typ == ErrIface && d.val.ErrV? && d.val.message.Some? ==> r == Ok(d.val.message.value)
    ensures d.typ.Float? && d.val.FloatV? ==> r == Ok(lib.bigFloatString(d.typ.fbits, d.val.bits))
    ensures d.typ.Complex? && d.val.ComplexV? ==> r == Ok(lib.formatComplex(d.typ.cbits, d.val.re, d.val.im))
  {
    match (d.typ, d.val)
    case (Bool, BoolV(b)) => Ok(FormatBool(b))
    case (Complex(w), ComplexV(_, re, im)) => Ok(lib.formatComplex(w, re, im))
    case (Float(w), FloatV(_, bits)) => Ok(lib.bigFloatString(w, bits))
    case (Int(_, _, false), IntV(i)) => Ok(FormatInt(i))
    case (Str, StrV(s)) => Ok(s)
    case (Time, TimeV(t)) => Ok(lib.formatTime(t))
    case (ErrIface, ErrV(Some(m))) => Ok(m)
    case (ErrIface, ErrV(None)) => Err(Panic)
    case _ => StringFromValue(lib, d.val, d.typ)
  }

  /** Whether the element loop accepts the encoding of one element: it
      must succeed, or be the skip sentinel when skips are tolerated. */
  predicate Encodes(lib: Lib, v: Value, et: FieldType, tolerateSkip: bool) {
    var r := StringFromValue(lib, v, et);
    r.Ok? || (tolerateSkip && r == Err(ErrSkip))
  }

  /** The texts of the elements that encode successfully, in order. */
  function Kept(lib: Lib, es: seq<Value>, et: FieldType): (r: seq<string>)
    ensures |r| <= |es|
    ensures (forall i :: 0 <= i < |es| ==> StringFromValue(lib, es[i], et).Ok?) ==>
      |r| == |es| && forall i :: 0 <= i < |es| ==> r[i] == StringFromValue(lib, es[i], et).value
    ensures (forall i :: 0 <= i < |es| ==> StringFromValue(lib, es[i], et).Err?) ==> r == []
    decreases |es|
  {
    if es == [] then []
    else
      var first := StringFromValue(lib, es[0], et);
      var rest := Kept(lib, es[1..], et);
      assert forall i :: 1 <= i < |es| ==> es[1..][i - 1] == es[i];
      if first.Ok? then [first.value] + rest else rest
  }

  /** The element loops of `setValueFromMap` (`tolerateSkip` false: any
      error aborts) and `setValuesFromStruct` (`tolerateSkip` true: a
      skipped element is dropped): each element's text is added under
      `key`, in order (see `EncodeElementsAddsKept`). */
  function EncodeElements(lib: Lib, es: seq<Value>, et: FieldType, key: string, acc: Multimap,
                          tolerateSkip: bool): (r: Result<Multimap, Error>)
    ensures r.Ok? <==> forall i :: 0 <= i < |es| ==> Encodes(lib, es[i], et, tolerateSkip)
    ensures r.Err? ==> exists i :: 0 <= i < |es| && StringFromValue(lib, es[i], et) == Err(r.error)
    ensures r.Err? && tolerateSkip ==> r.error != ErrSkip
    decreases |es|
  {
    if es == [] then Ok(acc)
    else
      assert forall i :: 1 <= i < |es| ==> es[1..][i - 1] == es[i];
      var first := StringFromValue(lib, es[0], et);
      if first.Ok? then EncodeElements(lib, es[1..], et, key, Add(acc, key, first.value), tolerateSkip)
      else if first.error == ErrSkip && tolerateSkip then EncodeElements(lib, es[1..], et, key, acc, tolerateSkip)
      else Err(first.error)
  }

  /** On success the element loop appends exactly the kept texts, in
      order, under `key`, and touches nothing else. */
  lemma {:induction false} EncodeElementsAddsKept(lib: Lib, es: seq<Value>, et: FieldType, key: string,
                                                   acc: Multimap, tolerateSkip: bool)
    ensures var r := EncodeElements(lib, es, et, key, acc, tolerateSkip);
      r.Ok? ==> r.value == AddAll(acc, key, Kept(lib, es, et))
    decreases |es|
  {
    if es != [] {
      var first := StringFromValue(lib, es[0], et);
      if first.Ok? {
        EncodeElementsAddsKept(lib, es[1..], et, key, Add(acc, key, first.value), tolerateSkip);
        AddAllAfterAdd(acc, key, first.value, Kept(lib, es[1..], et));
      } else {
        assert Kept(lib, es, et) == Kept(lib, es[1..], et);
        EncodeElementsAddsKept(lib, es[1..], et, key, acc, tolerateSkip);
      }
    }
  }

  /** The elements of an array or slice value, none for a nil slice. */
  function ElementsOf(v: Value): (r: Option<seq<Value>>)
    ensures r.Some? <==> v.ArrayV? || v.SliceV?
  {
    match v
    case ArrayV(es) => Some(es)
    case SliceV(items) => Some(items.GetOr([]))
    case _ => None
  }

  /** The value `setValueFromMap` inspects for a container: a pointer is
      followed once, and a nil pointer leaves nothing to inspect. */
  function MapTarget(d: Dyn): Option<Dyn> {
    if !d.val.PtrV? then Some(d)
    else if d.val.target.Some? then Some(Dyn(ElemOf(d.typ), d.val.target.value))
    else None
  }

  /** Whether the map entry `d` is written element by element. */
  predicate IsContainerEntry(d: Dyn) {
    var target := MapTarget(d);
    target.Some? && ElementsOf(target.value.val).Some?
  }

  /** What a map entry contributes to its key, independently of the rest
      of the map: the text of every element of an array or slice (all of
      them must encode), or the single text of any other value. */
  function EntryValues(lib: Lib, d: Dyn): Option<seq<string>> {
    if IsContainerEntry(d) then
      var t := MapTarget(d).value;
      var es := ElementsOf(t.val).value;
      if forall i :: 0 <= i < |es| ==> StringFromValue(lib, es[i], ElemOf(t.typ)).Ok?
      then Some(Kept(lib, es, ElemOf(t.typ)))
      else None
    else
      var s := StringFromConcrete(lib, d);
      if s.Ok? then Some([s.value]) else None
  }

  /** `setValueFromMap(vals, key, val)`: an array or slice (possibly behind
      a pointer) adds each element's text under `key`, any error,
      the skip sentinel included, aborting; any other value sets `key` to
      its text.  An empty array or slice never calls `Add`, so a fresh
      key stays absent.  Other keys are untouched. */
  function SetValueFromMap(lib: Lib, acc: Multimap, key: string, d: Dyn): (r: Result<Multimap, Error>)
    ensures r.Ok? <==> EntryValues(lib, d).Some?
    ensures r.Ok? ==> r.value - {key} == acc - {key}
    ensures r.Ok? && key !in acc ==> Get(r.value, key) == EntryValues(lib, d).value
    ensures r.Ok? && key !in acc ==> (key in r.value <==> EntryValues(lib, d).value != [])
    ensures d.typ.Ptr? && d.val == PtrV(None) ==> r == Err(ErrSkip)
  {
    if IsContainerEntry(d) then AddEntryElements(lib, acc, key, MapTarget(d).value)
    else
      var s := StringFromConcrete(lib, d);
      if s.Ok? then Ok(Set(acc, key, s.value)) else Err(s.error)
  }

  /** The element loop of `setValueFromMap` over the array or slice `t`
      (a pointer entry already followed): every element must encode, and
      their texts are added to `key` in order. */
  function AddEntryElements(lib: Lib, acc: Multimap, key: string, t: Dyn): (r: Result<Multimap, Error>)
    requires ElementsOf(t.val).Some?
    ensures var es := ElementsOf(t.val).value;
      (r.Ok? <==> forall i :: 0 <= i < |es| ==> StringFromValue(lib, es[i], ElemOf(t.typ)).Ok?)
      && (r.Ok? ==> r.value == AddAll(acc, key, Kept(lib, es, ElemOf(t.typ))))
  {
    var es := ElementsOf(t.val).value;
    EncodeElementsAddsKept(lib, es, ElemOf(t.typ), key, acc, false);
    EncodeElements(lib, es, ElemOf(t.typ), key, acc, false)
  }

  /** The `for k, v := range m` loop of `MarshalURLValues`, in the order
      the entries are given. */
  function EncodeEntries(lib: Lib, entries: seq<(string, Dyn)>, acc: Multimap): (r: Result<Multimap, Error>)
    ensures r.Ok? <==> forall i :: 0 <= i < |entries| ==> EntryValues(lib, entries[i].1).Some?
    decreases |entries|
  {
    if entries == [] then Ok(acc)
    else
      assert forall i :: 1 <= i < |entries| ==> entries[1..][i - 1] == entries[i];
      var m := SetValueFromMap(lib, acc, entries[0].0, entries[0].1);
      if m.Err? then Err(m.error) else EncodeEntries(lib, entries[1..], m.value)
  }

  /** The keys of a Go map are distinct. */
  predicate DistinctKeys(entries: seq<(string, Dyn)>) {
    forall i, j :: 0 <= i < j < |entries| ==> entries[i].0 != entries[j].0
  }

  function KeysOf(entries: seq<(string, Dyn)>): set<string> {
    set i | 0 <= i < |entries| :: entries[i].0
  }

  /** Whatever the iteration order, each key of the map ends up holding
      exactly its own entry's values, present exactly when there is at
      least one (an empty array or slice adds nothing), and nothing else
      is written. */
  lemma {:induction false} EncodeEntriesPerKey(lib: Lib, entries: seq<(string, Dyn)>, acc: Multimap)
    requires DistinctKeys(entries)
    requires forall i :: 0 <= i < |entries| ==> entries[i].0 !in acc
    requires EncodeEntries(lib, entries, acc).Ok?
    ensures var m := EncodeEntries(lib, entries, acc).value;
      (forall i :: 0 <= i < |entries| ==>
         Get(m, entries[i].0) == EntryValues(lib, entries[i].1).value
         && (entries[i].0 in m <==> EntryValues(lib, entries[i].1).value != []))
      && m - KeysOf(entries) == acc - KeysOf(entries)
    decreases |entries|
  {
    if entries != [] {
      var rest := entries[1..];
      var k := entries[0].0;
      var m1 := SetValueFromMap(lib, acc, k, entries[0].1).value;
      KeysOfCons(entries);
      FreshKeysStayFresh(rest, acc, m1, k);
      EncodeEntriesPerKey(lib, rest, m1);
      var m := EncodeEntries(lib, entries, acc).value;
      MinusCompose(m, m1, acc, k, KeysOf(rest));
      forall i | 1 <= i < |entries|
        ensures Get(m, entries[i].0) == EntryValues(lib, entries[i].1).value
        ensures entries[i].0 in m <==> EntryValues(lib, entries[i].1).value != []
      {
        assert entries[i] == rest[i - 1];
      }
    }
  }

  lemma {:induction false} KeysOfCons(entries: seq<(string, Dyn)>)
    requires |entries| > 0 && DistinctKeys(entries)
    ensures DistinctKeys(entries[1..])
    ensures KeysOf(entries) == {entries[0].0} + KeysOf(entries[1..])
    ensures entries[0].0 !in KeysOf(entries[1..])
    ensures forall i :: 0 <= i < |entries[1..]| ==> entries[1..][i].0 != entries[0].0
  {
    var rest := entries[1..];
    assert forall i :: 0 <= i < |rest| ==> rest[i] == entries[i + 1];
    forall x | x in KeysOf(entries)
      ensures x in {entries[0].0} + KeysOf(rest)
    {
      var i :| 0 <= i < |entries| && entries[i].0 == x;
      if i > 0 { assert rest[i - 1].0 == x; }
    }
  }

  lemma {:induction false} FreshKeysStayFresh(rest: seq<(string, Dyn)>, acc: Multimap, m1: Multimap, k: string)
    requires m1 - {k} == acc - {k}
    requires forall i :: 0 <= i < |rest| ==> rest[i].0 != k && rest[i].0 !in acc
    ensures forall i :: 0 <= i < |rest| ==> rest[i].0 !in m1
  {
    forall i | 0 <= i < |rest|
      ensures rest[i].0 !in m1
    {
      assert rest[i].0 !in m1 - {k};
    }
  }

  lemma {:induction false} MinusCompose(m: Multimap, m1: Multimap, acc: Multimap, k: string, ks: set<string>)
    requires m - ks == m1 - ks && m1 - {k} == acc - {k} && k !in ks
    ensures Get(m, k) == Get(m1, k) && (k in m <==> k in m1)
    ensures m - ({k} + ks) == acc - ({k} + ks)
  {
    assert k in m <==> k in m - ks;
    assert k in m1 <==> k in m1 - ks;
    assert k in m ==> m[k] == (m - ks)[k];
    assert k in m1 ==> m1[k] == (m1 - ks)[k];
    forall x | x !in {k} + ks
      ensures (x in m <==> x in acc) && (x in m ==> m[x] == acc[x])
    {
      assert x in m <==> x in m - ks;
      assert x in m1 <==> x in m1 - ks;
      assert x in m1 <==> x in m1 - {k};
      assert x in acc <==> x in acc - {k};
    }
  }

  /** One iteration of the field loop of `setValuesFromStruct`.  Ignored
      and omitted fields, nil pointers and nil slices leave the values
      alone; an array or slice (possibly behind a pointer) adds its
      elements' texts, dropping skipped ones; any other value is
      formatted against the field's declared type and set, a skip leaving
      the values alone.  Only the field's own key can change, and the skip
      sentinel never escapes. */
  function EncodeField(lib: Lib, f: Field, acc: Multimap): (r: Result<Multimap, Error>)
    ensures FieldKey(f.decl).None? ==> r == Ok(acc)
    ensures FieldKey(f.decl).Some? && FieldKey(f.decl).value.omitEmpty && IsZero(f.value) ==> r == Ok(acc)
    ensures f.value == PtrV(None) || f.value == SliceV(None) ==> r == Ok(acc)
    ensures r.Ok? && FieldKey(f.decl).Some? ==>
      r.value - {FieldKey(f.decl).value.key} == acc - {FieldKey(f.decl).value.key}
    ensures r.Ok? ==> forall k :: k in r.value && k !in acc ==>
      FieldKey(f.decl).Some? && FieldKey(f.decl).value.key == k
    ensures r.Err? ==> r.error == UnsupportedType || r.error == InvalidType
  {
    match FieldKey(f.decl)
    case None => Ok(acc)
    case Some(pk) =>
      if IsZero(f.value) && pk.omitEmpty then Ok(acc)
      else if f.value == PtrV(None) then Ok(acc)
      else
        var vt := if f.value.PtrV? then ElemOf(f.decl.typ) else f.decl.typ;
        var v := if f.value.PtrV? then f.value.target.value else f.value;
        EncodeFollowed(lib, v, vt, f.decl.typ, pk.key, acc)
  }

  /** The rest of the struct walk for one field, once a pointer field has
      been followed: `v` is the value reached and `vt` its type, `ft` the
      field's declared type.  A nil slice writes nothing, an array or
      slice adds its elements' texts, anything else is `Set` to the text
      of `v` against `ft`. */
  function EncodeFollowed(lib: Lib, v: Value, vt: FieldType, ft: FieldType, key: string, acc: Multimap)
    : (r: Result<Multimap, Error>)
    ensures v == SliceV(None) ==> r == Ok(acc)
    ensures r.Ok? ==> r.value - {key} == acc - {key}
    ensures r.Ok? ==> forall k :: k in r.value && k !in acc ==> k == key
    ensures r.Err? ==> r.error == UnsupportedType || r.error == InvalidType
  {
    if v == SliceV(None) then Ok(acc)
    else if ElementsOf(v).Some? then
      var r := EncodeElements(lib, ElementsOf(v).value, ElemOf(vt), key, acc, true);
      EncodeElementsAddsKept(lib, ElementsOf(v).value, ElemOf(vt), key, acc, true);
      r
    else
      var s := StringFromValue(lib, v, ft);
      if s.Ok? then Ok(Set(acc, key, s.value))
      else if s.error == ErrSkip then Ok(acc)
      else Err(s.error)
  }

  /** The field loop of `setValuesFromStruct`: fields in declaration
      order, the first error ending the walk.  Every parameter written
      comes from an exported field that is not tagged `-`. */
  function EncodeFields(lib: Lib, fields: seq<Field>, acc: Multimap): (r: Result<Multimap, Error>)
    ensures r.Err? ==> r.error == UnsupportedType || r.error == InvalidType
    ensures r.Ok? ==> forall k :: k in r.value && k !in acc ==>
      exists i :: 0 <= i < |fields| && FieldKey(fields[i].decl).Some? && FieldKey(fields[i].decl).value.key == k
    decreases |fields|
  {
    if fields == [] then Ok(acc)
    else
      var m := EncodeField(lib, fields[0], acc);
      if m.Err? then Err(m.error)
      else
        var r := EncodeFields(lib, fields[1..], m.value);
        assert forall i :: 1 <= i < |fields| ==> fields[1..][i - 1] == fields[i];
        assert r.Ok? ==> forall k :: k in r.value && k !in acc ==>
          exists i :: 0 <= i < |fields| && FieldKey(fields[i].decl).Some? && FieldKey(fields[i].decl).value.key == k
        by {
          if r.Ok? {
            forall k | k in r.value && k !in acc
              ensures exists i :: 0 <= i < |fields| && FieldKey(fields[i].decl).Some?
                                  && FieldKey(fields[i].decl).value.key == k
            {
              if k !in m.value {
                var j :| 0 <= j < |fields[1..]| && FieldKey(fields[1..][j].decl).Some?
                         && FieldKey(fields[1..][j].decl).value.key == k;
                assert fields[j + 1] == fields[1..][j];
              }
            }
          }
        }
        r
  }

  /** A zero scalar field without `omitempty` is written as its type's
      zero text, replacing whatever the parameter held. */
  lemma ZeroScalarFieldWritesZero(lib: Lib, f: Field, acc: Multimap)
    requires FieldKey(f.decl).Some? && !FieldKey(f.decl).value.omitEmpty
    requires HasType(f.value, f.decl.typ) && IsZero(f.value) && ZeroValue(lib, f.decl.typ).Ok?
    ensures EncodeField(lib, f, acc) == Ok(Set(acc, FieldKey(f.decl).value.key, ZeroValue(lib, f.decl.typ).value))
  {
  }

  /** An array or non-nil slice field adds under its
      key the texts of its elements in order, each formatted against the
      element type, leaving out the elements that skip; the list already
      under the key is kept in front. */
  lemma EncodeFieldAddsElements(lib: Lib, f: Field, acc: Multimap)
    requires FieldKey(f.decl).Some? && !(FieldKey(f.decl).value.omitEmpty && IsZero(f.value))
    requires HasType(f.value, f.decl.typ)
    requires Sequence(f.decl.typ, f.value)
      || (f.decl.typ.Ptr? && f.value.target.Some? && Sequence(f.decl.typ.elem, f.value.target.value))
    ensures var seqType := if f.decl.typ.Ptr? then f.decl.typ.elem else f.decl.typ;
      var v := if f.decl.typ.Ptr? then f.value.target.value else f.value;
      var r := EncodeField(lib, f, acc);
      (r.Ok? <==> forall i :: 0 <= i < |ElementsOf(v).value| ==> Encodes(lib, ElementsOf(v).value[i], seqType.elem, true))
      && (r.Ok? ==> r.value == AddAll(acc, FieldKey(f.decl).value.key, Kept(lib, ElementsOf(v).value, seqType.elem)))
  {
    var seqType := if f.decl.typ.Ptr? then f.decl.typ.elem else f.decl.typ;
    var v := if f.decl.typ.Ptr? then f.value.target.value else f.value;
    var key := FieldKey(f.decl).value.key;
    assert EncodeField(lib, f, acc) == EncodeFollowed(lib, v, seqType, f.decl.typ, key, acc);
    FollowedSequenceAddsElements(lib, v, seqType, f.decl.typ, key, acc);
  }

  /** The element loop over a followed array or non-nil slice. */
  lemma FollowedSequenceAddsElements(lib: Lib, v: Value, vt: FieldType, ft: FieldType, key: string, acc: Multimap)
    requires Sequence(vt, v)
    ensures var r := EncodeFollowed(lib, v, vt, ft, key, acc);
      (r.Ok? <==> forall i :: 0 <= i < |ElementsOf(v).value| ==> Encodes(lib, ElementsOf(v).value[i], vt.elem, true))
      && (r.Ok? ==> r.value == AddAll(acc, key, Kept(lib, ElementsOf(v).value, vt.elem)))
  {
    EncodeElementsAddsKept(lib, ElementsOf(v).value, vt.elem, key, acc, true);
  }

  /** `v` is an array, or a non-nil slice, of type `t`. */
  predicate Sequence(t: FieldType, v: Value) {
    (t.Array? && v.ArrayV?) || (t.Slice? && v.SliceV? && v.items.Some?)
  }

  /** A bound field that is not dropped and holds a non-zero scalar, or a
      non-nil pointer to one, is `Set` to the text the kind switch gives
      that scalar: `true`/`false`, decimal, the string, the error's
      message, or the `Lib` formatting; any other kind fails.  The walk
      follows a pointer field once and `stringFromValue` follows one more
      pointer, so a pointer to a pointer is formatted two levels down. */
  lemma EncodeScalarField(lib: Lib, f: Field, acc: Multimap)
    requires FieldKey(f.decl).Some? && !(FieldKey(f.decl).value.omitEmpty && IsZero(f.value))
    requires f.value.PtrV? ==> f.value.target.Some?
    requires var v := if f.value.PtrV? then f.value.target.value else f.value;
      !IsZero(v) && ElementsOf(v).None?
    ensures var v := if f.value.PtrV? then f.value.target.value else f.value;
      var w := if v.PtrV? then v.target.value else v;
      var key := FieldKey(f.decl).value.key;
      EncodeField(lib, f, acc) == match FormatKind(lib, w)
        case Ok(text) => Ok(Set(acc, key, text))
        case Err(e) => Err(e)
  {
  }

  /** A non-nil error field is written as its message. */
  lemma ErrorFieldWritesMessage(lib: Lib, f: Field, acc: Multimap, message: string)
    requires FieldKey(f.decl).Some? && f.decl.typ == ErrIface && f.value == ErrV(Some(message))
    ensures EncodeField(lib, f, acc) == Ok(Set(acc, FieldKey(f.decl).value.key, message))
  {
    EncodeScalarField(lib, f, acc);
  }

  /** A non-nil pointer field to a non-zero scalar is written as a field
      of the pointer's element type holding that scalar would be. */
  lemma PointerFieldWritesTarget(lib: Lib, f: Field, acc: Multimap)
    requires FieldKey(f.decl).Some? && f.decl.typ.Ptr?
    requires f.value.PtrV? && f.value.target.Some?
    requires !IsZero(f.value.target.value) && ElementsOf(f.value.target.value).None?
    requires !f.value.target.value.PtrV?
    ensures EncodeField(lib, f, acc)
      == EncodeField(lib, Field(FieldDecl(f.decl.name, f.decl.exported, f.decl.tag, f.decl.typ.elem), f.value.target.value), acc)
  {
    var g := Field(FieldDecl(f.decl.name, f.decl.exported, f.decl.tag, f.decl.typ.elem), f.value.target.value);
    assert FieldKey(g.decl) == FieldKey(f.decl);
    EncodeScalarField(lib, f, acc);
    EncodeScalarField(lib, g, acc);
  }

  /** No field of `fields` is bound to parameter `k`. */
  predicate NotAFieldKey(fields: seq<Field>, k: string) {
    forall i :: 0 <= i < |fields| ==> FieldKey(fields[i].decl).None? || FieldKey(fields[i].decl).value.key != k
  }

  /** The struct walk leaves every parameter that no field is bound to
      exactly as it found it. */
  lemma {:induction false} EncodeFieldsLeavesOtherKeys(lib: Lib, fields: seq<Field>, acc: Multimap, k: string)
    requires NotAFieldKey(fields, k)
    ensures var r := EncodeFields(lib, fields, acc);
      r.Ok? ==> (k in r.value <==> k in acc) && Get(r.value, k) == Get(acc, k)
    decreases |fields|
  {
    if fields != [] {
      var m := EncodeField(lib, fields[0], acc);
      if m.Ok? {
        assert forall i :: 1 <= i < |fields| ==> fields[1..][i - 1] == fields[i];
        EncodeFieldsLeavesOtherKeys(lib, fields[1..], m.value, k);
        if FieldKey(fields[0].decl).Some? {
          MinusAgrees(m.value, acc, FieldKey(fields[0].decl).value.key, k);
        }
      }
    }
  }

  lemma MinusAgrees(a: Multimap, b: Multimap, key: string, k: string)
    requires a - {key} == b - {key} && k != key
    ensures (k in a <==> k in b) && Get(a, k) == Get(b, k)
  {
    assert k in a <==> k in a - {key};
    assert k in b <==> k in b - {key};
    assert k in a ==> a[k] == (a - {key})[k];
    assert k in b ==> b[k] == (b - {key})[k];
  }

  /** `MarshalURLValues`'s argument, by the case its type switch picks:
      a `URLValuesMarshaler` (with what its method returns), nil, a
      `map[string]any` (its entries in iteration order), a struct, a
      pointer (nil, or to the argument it points at), or anything else. */
  datatype Arg =
    | Marshaler(hookValues: Multimap, hookErr: Option<Error>)
    | NilArg
    | MapArg(entries: seq<(string, Dyn)>)
    | StructArg(fields: seq<Field>)
    | PointerArg(target: Option<Arg>)
    | OtherArg

  /** The `(url.Values, error)` pair `MarshalURLValues` returns. */
  datatype Marshaled = Marshaled(values: Multimap, err: Option<Error>)

  function FromResult(r: Result<Multimap, Error>): Marshaled {
    match r
    case Ok(m) => Marshaled(m, None)
    case Err(e) => Marshaled(map[], Some(e))
  }

  /** `MarshalURLValues(i)`.  A marshaler's own result is returned as it
      is; on every other path an error comes with empty values.  Nil
      arguments, nil pointers included, are `NilValue`; the skip sentinel
      can only escape from a map. */
  function MarshalURLValues(lib: Lib, a: Arg): (r: Marshaled)
    ensures a.Marshaler? ==> r == Marshaled(a.hookValues, a.hookErr)
    ensures !a.Marshaler? && r.err.Some? ==> r.values == map[]
    ensures a.NilArg? || a == PointerArg(None) ==> r.err == Some(NilValue)
    ensures a.OtherArg? || (a.PointerArg? && a.target.Some? && !a.target.value.StructArg?) ==>
      r.err == Some(NotMarshalable)
    ensures a.MapArg? ==>
      (r.err.None? <==> forall i :: 0 <= i < |a.entries| ==> EntryValues(lib, a.entries[i].1).Some?)
    ensures (a.StructArg? || (a.PointerArg? && a.target.Some? && a.target.value.StructArg?)) && r.err.Some? ==>
      r.err.value == UnsupportedType || r.err.value == InvalidType
    ensures r.err == Some(ErrSkip) ==> a.MapArg? || a.Marshaler?
    ensures a.PointerArg? && a.target.Some? && a.target.value.StructArg? ==> r == MarshalURLValues(lib, a.target.value)
  {
    match a
    case Marshaler(vs, e) => Marshaled(vs, e)
    case NilArg => Marshaled(map[], Some(NilValue))
    case MapArg(entries) => FromResult(EncodeEntries(lib, entries, map[]))
    case StructArg(fields) => FromResult(EncodeFields(lib, fields, map[]))
    case PointerArg(None) => Marshaled(map[], Some(NilValue))
    case PointerArg(Some(StructArg(fields))) => FromResult(EncodeFields(lib, fields, map[]))
    case PointerArg(Some(_)) => Marshaled(map[], Some(NotMarshalable))
    case OtherArg => Marshaled(map[], Some(NotMarshalable))
  }
}
