/** What the two engines share: their error values, the formatting and
    parsing routines of the Go standard library they call but this model
    does not define, the rule that maps a struct field to a parameter
    name, and `url.Values`. */
module Codec {
  import opened GoResults
  import opened GoStrings
  import opened GoStrconv
  import opened Reflect

  /** The errors the engines return, one constructor per distinct cause.
      A run-time panic of the Go code is the value `Panic`. */
  datatype Error =
    | ErrSkip                     // the internal `errSkip` sentinel
    | NilValue                    // "value cannot be nil"
    | NotMarshalable              // "argument must be a map[string]any, struct, …"
    | UnsupportedType             // "unsupported type …"
    | InvalidType                 // "invalid type …"
    | NumError(kind: NumErrorKind) // from strconv.ParseBool/ParseInt/ParseUint/Atoi
    | ParseFailed                 // from strconv.ParseFloat/ParseComplex or time.Parse
    | NotAssignable(from: FieldType, to: FieldType)
    | NilDestination              // "second argument must not be nil"
    | BadDestination              // "second argument must be a non-nil pointer …"
    | NotAStruct                  // "structType must be struct"
    | Panic
    | Custom(message: string)     // an error a user hook returns

  /** Standard-library routines on floating-point numbers and times,
      which the model takes as given:
      `formatFloat(w, bits)`  is `strconv.FormatFloat(f, 'f', -1, w)`;
      `bigFloatString(bits)`  is `big.NewFloat(f).String()`;
      `formatComplex(w, re, im)` is `strconv.FormatComplex(c, 'f', -1, w)`;
      `formatTime(t)`         is `t.Format(time.RFC3339)`;
      `parseFloat(s, w)`, `parseComplex(s, w)` and `parseTime(s)` are
      `strconv.ParseFloat`, `strconv.ParseComplex` and
      `time.Parse(time.RFC3339, …)`, `None` standing for an error. */
  datatype Lib = Lib(
    formatFloat: (nat, nat) -> string,
    bigFloatString: (nat, nat) -> string,
    formatComplex: (nat, nat, nat) -> string,
    formatTime: Instant -> string,
    parseFloat: (string, nat) -> Option<nat>,
    parseComplex: (string, nat) -> Option<(nat, nat)>,
    parseTime: string -> Option<Instant>)

  /** A struct field's declaration: `tag` is the value of its `url` tag
      key, when it has one. */
  datatype FieldDecl = FieldDecl(name: string, exported: bool, tag: Option<string>, typ: FieldType)

  /** A field of a struct value. */
  datatype Field = Field(decl: FieldDecl, value: Value)

  /** The parameter a field is bound to. */
  datatype ParamKey = ParamKey(key: string, omitEmpty: bool)

  const OmitEmptySuffix: string := ",omitempty"

  /** The rule both engines apply to a field: unexported fields are
      ignored; an untagged field uses its Go name; otherwise a trailing
      `,omitempty` is the omit flag and the rest of the tag is the name,
      `-` meaning "ignore".  Nothing else in the tag is interpreted. */
  function FieldKey(d: FieldDecl): (r: Option<ParamKey>)
    ensures r.None? <==> !d.exported || (d.tag.Some? && TrimSuffix(d.tag.value, OmitEmptySuffix) == "-")
    ensures r.Some? && d.tag.None? ==> r.value == ParamKey(d.name, false)
    ensures r.Some? && d.tag.Some? ==>
      r.value.omitEmpty == HasSuffix(d.tag.value, OmitEmptySuffix)
      && r.value.key + (if r.value.omitEmpty then OmitEmptySuffix else "") == d.tag.value
  {
    if !d.exported then None
    else match d.tag
      case None => Some(ParamKey(d.name, false))
      case Some(tag) =>
        var omit := HasSuffix(tag, OmitEmptySuffix);
        var key := TrimSuffix(tag, OmitEmptySuffix);
        if key == "-" then None else Some(ParamKey(key, omit))
  }

  /** `url.Values`: every parameter name with its list of values. */
  type Multimap = map<string, seq<string>>

  /** `values[k]`: the list under `k`, empty when `k` is absent. */
  function Get(m: Multimap, k: string): seq<string> {
    if k in m then m[k] else []
  }

  /** `values.Set(k, s)`: `k` now holds exactly `s`. */
  function Set(m: Multimap, k: string, s: string): Multimap {
    m[k := [s]]
  }

  /** `values.Add(k, s)`: `s` is appended to the list under `k`. */
  function Add(m: Multimap, k: string, s: string): Multimap {
    m[k := Get(m, k) + [s]]
  }

  /** `Add` once for each of `ss`, in order. */
  function AddAll(m: Multimap, k: string, ss: seq<string>): (r: Multimap)
    ensures ss == [] ==> r == m
    ensures ss != [] ==> r == m[k := Get(m, k) + ss]
    decreases |ss|
  {
    if ss == [] then m
    else
      var m1 := Add(m, k, ss[0]);
      assert Get(m1, k) == Get(m, k) + [ss[0]];
      assert (Get(m, k) + [ss[0]]) + ss[1..] == Get(m, k) + ss;
      assert ss[1..] == [] ==> ss == [ss[0]];
      assert m1[k := Get(m, k) + ss] == m[k := Get(m, k) + ss];
      AddAll(m1, k, ss[1..])
  }

  lemma AddAllAfterAdd(m: Multimap, k: string, s: string, ss: seq<string>)
    ensures AddAll(Add(m, k, s), k, ss) == AddAll(m, k, [s] + ss)
  {
    assert Get(Add(m, k, s), k) + ss == Get(m, k) + ([s] + ss);
  }
}
