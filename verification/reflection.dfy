/** The part of Go's run-time type information the codec inspects: the
    kinds of field types it distinguishes, the values they hold, and
    `reflect.Value.IsZero` / `reflect.Zero` on them. */
module Reflect {
  import opened GoResults
  import opened GoStrconv

  /** A point in time, standing for a `time.Time`; `ZeroInstant` is
      `time.Time{}`. */
  datatype Instant = Instant(repr: nat)

  const ZeroInstant: Instant := Instant(0)

  /** The field types the codec tells apart.  `Int` covers the ten integer
      kinds: `bits` is 0 for `int`/`uint` (64 bits here), `named` marks a
      defined type such as `time.Duration`.  `ErrIface` is the `error`
      interface; `Chan` a channel; `Opaque` any other kind (maps,
      functions, structs other than `time.Time`). */
  datatype FieldType =
    | Bool
    | Int(bits: nat, signed: bool, named: bool)
    | Str
    | Float(fbits: nat)
    | Complex(cbits: nat)
    | Time
    | ErrIface
    | Ptr(elem: FieldType)
    | Slice(elem: FieldType)
    | Array(len: nat, elem: FieldType)
    | Chan
    | Opaque

  /** A value of one of those types.  Floating-point numbers are kept as
      their IEEE-754 bit patterns; `ErrV(None)`, `PtrV(None)` and
      `SliceV(None)` are the nil interface, pointer and slice; `OtherV`
      only records whether the value is its type's zero value. */
  datatype Value =
    | BoolV(b: bool)
    | IntV(i: int)
    | StrV(s: string)
    | FloatV(width: nat, bits: nat)
    | ComplexV(cwidth: nat, re: nat, im: nat)
    | TimeV(t: Instant)
    | ErrV(message: Option<string>)
    | PtrV(target: Option<Value>)
    | SliceV(items: Option<seq<Value>>)
    | ArrayV(elems: seq<Value>)
    | OtherV(isZero: bool)

  /** A value together with its dynamic type, as an `any` holds it. */
  datatype Dyn = Dyn(typ: FieldType, val: Value)

  /** The types Go actually has: integer widths 0, 8, 16, 32, 64, float
      widths 32 and 64, complex widths 64 and 128. */
  predicate WellFormed(t: FieldType) {
    match t
    case Int(bits, _, _) => bits in {0, 8, 16, 32, 64}
    case Float(w) => w == 32 || w == 64
    case Complex(w) => w == 64 || w == 128
    case Ptr(e) => WellFormed(e)
    case Slice(e) => WellFormed(e)
    case Array(_, e) => WellFormed(e)
    case _ => true
  }

  /** The integers an integer kind of `bits` bits can hold. */
  predicate InRange(i: int, bits: nat, signed: bool) {
    if signed then -(Pow2(Width(bits) - 1) as int) <= i < Pow2(Width(bits) - 1)
    else 0 <= i < Pow2(Width(bits))
  }

  /** `t.Elem()`: the element type of a pointer, slice or array type
      (other types are returned unchanged). */
  function ElemOf(t: FieldType): FieldType {
    match t
    case Ptr(e) => e
    case Slice(e) => e
    case Array(_, e) => e
    case _ => t
  }

  /** `v` is a value of type `t`. */
  predicate HasType(v: Value, t: FieldType)
    decreases t
  {
    match t
    case Bool => v.BoolV?
    case Int(bits, signed, _) => v.IntV? && InRange(v.i, bits, signed)
    case Str => v.StrV?
    case Float(w) => v.FloatV? && v.width == w
    case Complex(w) => v.ComplexV? && v.cwidth == w
    case Time => v.TimeV?
    case ErrIface => v.ErrV?
    case Ptr(e) => v.PtrV? && (v.target.Some? ==> HasType(v.target.value, e))
    case Slice(e) =>
      v.SliceV? && (v.items.Some? ==> forall i :: 0 <= i < |v.items.value| ==> HasType(v.items.value[i], e))
    case Array(n, e) =>
      v.ArrayV? && |v.elems| == n && forall i :: 0 <= i < n ==> HasType(v.elems[i], e)
    case Chan => v.OtherV?
    case Opaque => v.OtherV?
  }

  /** `reflect.Value.IsZero`: false, 0, "", a zero bit pattern (so -0.0
      is not zero), the zero time, nil, and an array all of whose elements
      are zero. */
  predicate IsZero(v: Value) {
    match v
    case BoolV(b) => !b
    case IntV(i) => i == 0
    case StrV(s) => s == ""
    case FloatV(_, bits) => bits == 0
    case ComplexV(_, re, im) => re == 0 && im == 0
    case TimeV(t) => t == ZeroInstant
    case ErrV(m) => m.None?
    case PtrV(p) => p.None?
    case SliceV(items) => items.None?
    case ArrayV(elems) => forall i :: 0 <= i < |elems| ==> IsZero(elems[i])
    case OtherV(z) => z
  }

  /** `reflect.Zero(t)`: the zero value of `t`. */
  function ZeroOf(t: FieldType): (r: Value)
    ensures IsZero(r) && HasType(r, t)
  {
    match t
    case Bool => BoolV(false)
    case Int(_, _, _) => IntV(0)
    case Str => StrV("")
    case Float(w) => FloatV(w, 0)
    case Complex(w) => ComplexV(w, 0, 0)
    case Time => TimeV(ZeroInstant)
    case ErrIface => ErrV(None)
    case Ptr(_) => PtrV(None)
    case Slice(_) => SliceV(None)
    case Array(n, e) => ArrayV(seq(n, _ => ZeroOf(e)))
    case Chan => OtherV(true)
    case Opaque => OtherV(true)
  }

  /** `n` zero values of type `e`: a fresh array or slice. */
  function Zeros(n: nat, e: FieldType): (r: seq<Value>)
    ensures |r| == n && forall j :: 0 <= j < n ==> r[j] == ZeroOf(e)
  {
    seq(n, _ => ZeroOf(e))
  }

  /** Each type has exactly one zero value: a zero value of type `t` is
      `ZeroOf(t)`. */
  lemma {:induction false} ZeroIsUnique(v: Value, t: FieldType)
    requires HasType(v, t) && IsZero(v)
    ensures v == ZeroOf(t)
    decreases t
  {
    match t
    case Array(n, e) =>
      forall i | 0 <= i < n
        ensures v.elems[i] == ZeroOf(t).elems[i]
      {
        ZeroIsUnique(v.elems[i], e);
      }
    case _ =>
  }
}
