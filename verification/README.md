# urlvalues in Dafny

A model of the Go package `urlvalues` (module `go.gideaworx.io/go-encoding`).
The package converts between Go values and `url.Values`, the multimap from
parameter names to lists of strings that query strings and form bodies use.
It has three pieces, and the model has one module for each:

- **`TagParser`** (`tag_parser.dfy`) models `ParseTag`. It splits a `url` struct
  tag on commas and takes part 0 as the name. It finds a `join='…'` delimiter,
  which may span several comma parts. It sets the `omitempty` flag only when that
  part lies outside the join span. Neither engine calls it.
- **`UrlMarshal`** (`url_marshal.dfy`) models `MarshalURLValues`:
  - the dispatch on the argument;
  - the `map[string]any` path (`setValueFromMap`);
  - the struct field walk (`setValuesFromStruct`);
  - the scalar encoders `stringFromConcrete` and `stringFromValue`;
  - the zero-text table `zeroValue`.
- **`UrlUnmarshal`** (`url_unmarshal.dfy`) models `UnmarshalURLValues`:
  - the dispatch on the destination;
  - `unmarshalMap`, with the untyped decoder `fromStringToAny`;
  - `unmarshalStruct`, which builds a fresh zero struct and commits it only on success;
  - the field shaper `fromStringsToValue`, covering slices, arrays and pointers;
  - the per-kind decoder `fromStringToValue`.

Supporting modules:

- **`GoResults`**: `Option` and `Result`.
- **`GoStrings`**: `Split`, `Join`, trims, ASCII `ToLower`.
- **`GoStrconv`**: base-10 `ParseInt`, `ParseUint`, `Atoi`, `fmt`'s `%d`, `ParseBool` and `FormatBool`.
- **`Reflect`**: the field types and values the code tells apart, plus `IsZero` and `reflect.Zero`.
- **`Codec`**: the error values, the library routines taken as parameters, the field-to-parameter rule both engines use, and `url.Values` with `Set` and `Add`.

Three modules relate the pieces:

- **`RoundTrip`** proves that booleans, integers, strings and non-nil errors survive a marshal followed by an unmarshal. This holds field by field and for whole structs.
- **`Quirks`** states surprising behaviours on small inputs.
- **`TagFixtures`** runs `ParseTag` on the tags of the repository's test models.

Reflection is replaced by closed datatypes:

- A struct is a sequence of `Field`s, each a declaration (name, exported, optional `url` tag, type) and a value.
- A map argument is a sequence of entries in iteration order.
- `url.Values` is `map<string, seq<string>>`.
- A Go panic is the error value `Panic`.

Floating-point, complex and time formatting and parsing are not defined here. They are the fields of a `Lib` value, which every engine function takes as a parameter. A float is kept as its IEEE-754 bit pattern, so `IsZero` is exact.

Where the package's doc comments (`urlvalues/url_unmarshal.go:18-37`, `urlvalues/url_marshal.go:23-52`) and its code disagree, the model follows the code:

- The comment on `UnmarshalURLValues` says an `omitempty` field whose value is zero "will not be explicitly set", which reads as keeping the field's previous value. The code builds a fresh zero struct instead, so every field it does not set comes back zero, whatever the destination held.

The doc comments are silent on the following, which the model takes from the code:

- `strconv.ParseBool` accepts `"1"` and `"0"`. So the untyped decoder returns `true` or `false` for them, not a number (`Quirks.MapOneBecomesTrue`).
- The "unterminated join" error fires only when part 0 is the opener. An opener at a later part never fails.
- Neither engine interprets `join='…'` or calls `ParseTag`. Both engines use a simpler rule: strip one trailing `,omitempty`, and treat `-` as "ignore" (`Codec.FieldKey`).
- A zero scalar is not always written as its zero text. A non-nil pointer to a zero scalar is dropped from a struct, because the zero text is looked up for the pointer type.

## Model

| member | source | states |
|---|---|---|
| GoStrings.Split | urlvalues/tag_parser.go:27 | `strings.Split` yields at least one part, no part contains the separator, and joining the parts back gives the input |
| GoStrings.SplitJoin | urlvalues/tag_parser.go:27 | splitting undoes joining parts that contain no separator |
| GoStrings.ToLower | urlvalues/tag_parser.go:18 | lower-casing keeps the length and maps each ASCII capital to its small letter, leaving other characters alone |
| GoStrings.TrimPrefix | urlvalues/tag_parser.go:47 | the prefix is removed exactly when the string starts with it, and prefix plus result is then the input |
| GoStrings.TrimSuffix | urlvalues/url_marshal.go:154 | the suffix is removed exactly when the string ends with it, and result plus suffix is then the input |
| GoStrings.LeadingSpaces | urlvalues/tag_parser.go:18 | counts exactly the white space that `strings.TrimSpace` removes at the front |
| GoStrings.TrailingSpaces | urlvalues/tag_parser.go:18 | counts exactly the white space that `strings.TrimSpace` removes at the back |
| GoStrconv.Digits | urlvalues/url_marshal.go:269-272 | `%d` of a natural number is a digit run with no leading zero that denotes that number |
| GoStrconv.FormatIntIsSignedDecimal | urlvalues/url_marshal.go:269-272 | `%d` of any integer is text that `ParseInt` accepts as a signed decimal, with that integer as its value |
| GoStrconv.ScanDigits | urlvalues/url_unmarshal.go:254-256 | the digit loop succeeds exactly when the rest of the text is digits and the number fits the bound, and then returns that number |
| GoStrconv.ParseUint | urlvalues/url_unmarshal.go:254-256 | base-10 `ParseUint` accepts exactly a digit run whose value fits the bit size, and returns that value |
| GoStrconv.ParseInt | urlvalues/url_unmarshal.go:251-253 | base-10 `ParseInt` accepts exactly an optionally signed digit run whose value fits the signed range of the bit size, and returns that value |
| GoStrconv.Atoi | urlvalues/url_unmarshal.go:263-265 | `Atoi` accepts exactly an optionally signed digit run within the 64-bit range, and returns its value |
| GoStrconv.ParseIntFormatInt | urlvalues/url_unmarshal.go:251-274 | the decimal text of any signed integer in range parses back to that integer at every width |
| GoStrconv.ParseUintFormatInt | urlvalues/url_unmarshal.go:275-286 | the decimal text of any unsigned integer in range parses back to that integer at every width |
| GoStrconv.FormatBool | urlvalues/url_marshal.go:259-260 | a boolean is written `true` or `false`, a spelling `ParseBool` reads as that boolean |
| GoStrconv.ParseBool | urlvalues/url_unmarshal.go:242-244 | exactly the twelve spellings parse, `"1"` and `"0"` among them; the six true spellings give true; anything else is a syntax error |
| GoStrconv.ParseBoolFormatBool | urlvalues/url_unmarshal.go:242-244 | a formatted boolean parses back to itself |
| Reflect.ZeroOf | urlvalues/url_unmarshal.go:91 | `reflect.Zero(t)` is a zero value that has type `t` |
| Reflect.ZeroIsUnique | urlvalues/url_unmarshal.go:119-121 | any zero value of type `t` is `reflect.Zero(t)`, so an omitted zero decoding equals the fresh field |
| Codec.FieldKey | urlvalues/url_marshal.go:143-160 | a field is ignored exactly when it is unexported or its tag minus `,omitempty` is `-`; an untagged field uses its Go name without omit; otherwise the omit flag is the suffix test and key plus suffix rebuilds the tag |
| Codec.AddAll | urlvalues/url_marshal.go:178-188 | adding a list of texts under a key appends them, in order, to that key's list and changes nothing else; an empty list changes nothing |
| Codec.AddAllAfterAdd | urlvalues/url_marshal.go:178-188 | one `Add` followed by the rest equals adding the whole list |
| TagParser.IndexFunc | urlvalues/tag_parser.go:32 | `slices.IndexFunc` returns -1 or an index whose element satisfies the test, and no earlier element satisfies it |
| TagParser.JoinStart | urlvalues/tag_parser.go:16-32 | the opener index is the first part that starts with `join='` after trimming and lower-casing, or -1 |
| TagParser.JoinEnd | urlvalues/tag_parser.go:33-38 | with an opener past part 0, the closing index is the first later part ending in a quote, or the opener itself when no later part does; otherwise -1 |
| TagParser.ParseParts | urlvalues/tag_parser.go:27-65 | the unterminated error fires exactly when part 0 is an opener; the name is part 0; the delimiter is "" without an opener and otherwise the span rejoined with commas minus `join='` and one quote; omitEmpty holds exactly when the first omitempty part is not part 0 and lies outside the join span |
| TagParser.ParseTag | urlvalues/tag_parser.go:22-66 | `-` is the skip sentinel; every other tag is either unterminated, exactly when its name is an opener, or parsed with the text before the first comma as its name |
| TagParser.FirstPartIsName | urlvalues/tag_parser.go:27-30 | part 0 of the split tag is the text before the first comma |
| TagParser.UnterminatedOnlyAtPartZero | urlvalues/tag_parser.go:33-42 | the unterminated error arises exactly when the first opener is part 0 |
| TagParser.JoinTextUniform | urlvalues/tag_parser.go:44-58 | the three branches of the delimiter switch all equal one formula: the span rejoined with commas, minus a leading `join='` and one trailing quote |
| TagParser.NoJoinTag | urlvalues/tag_parser.go:22-65 | a tag that is a plain name parses to that name, no omit flag and an empty delimiter |
| TagParser.EmptyJoinParts | urlvalues/tag_parser.go:44-58 | the parts `[name, join='']` parse to an empty delimiter |
| TagParser.EmptyJoinTag | urlvalues/tag_parser.go:22-65 | `name,join=''` parses to the name with an empty delimiter |
| TagParser.NoJoinLooksLikeEmptyJoin | urlvalues/tag_parser.go:10-14 | the descriptor cannot tell "no join" from `join=''` |
| TagFixtures.JoinedSliceTag | urlvalues/url_models_test.go:49 | `j,join=', '` parses to the delimiter `", "`, spanning two parts |
| TagFixtures.JoinNoCommaTag | urlvalues/url_models_test.go:50 | `jnc,join='X'` parses to the delimiter `"X"` |
| TagFixtures.JoinMultiCommaTag | urlvalues/url_models_test.go:51 | `jmc,join='a,b,c'` parses to the delimiter `"a,b,c"`, spanning three parts |
| TagFixtures.JoinEmptyStrTag | urlvalues/url_models_test.go:52 | `jes,join=''` parses to the empty delimiter |
| TagFixtures.OmitEmptyTag | urlvalues/url_models_test.go:54 | `o,omitempty` gives the name `o` with the omit flag, both for the parser and for the engines' rule |
| TagFixtures.DashOmitEmptyTag | urlvalues/url_marshal.go:151-157 | `-,omitempty` is a descriptor named `-` for the parser but an ignored field for the engines |
| UrlMarshal.ZeroValue | urlvalues/url_marshal.go:289-318 | the zero text is the skip sentinel exactly for arrays, channels, pointers and slices; an invalid-type error exactly for kinds it does not know; a text exactly for the scalar, time and error kinds: `false` for booleans, `0` for every number kind, the empty string for strings and errors, and the formatted zero time for times |
| UrlMarshal.FormatKind | urlvalues/url_marshal.go:258-286 | a dereferenced non-zero value formats exactly when it is a boolean, number, string, time or non-nil error; anything else is "unsupported type"; a boolean is `true`/`false`, an integer its decimal text, a string itself, an error its message, and floats, complex numbers and times the `Lib` formatting of their value |
| UrlMarshal.StringFromValue | urlvalues/url_marshal.go:237-287 | a zero value gets its static type's zero text; the skip sentinel arises exactly for zero containers, channels and pointers; a non-zero value fails only as unsupported |
| UrlMarshal.NonZeroTexts | urlvalues/url_marshal.go:246-287 | a non-zero boolean, integer, string or error, or a non-nil pointer to one, is written `true`/`false`, as decimal, verbatim or as its message; a pointer to a pointer, a container or another kind is "unsupported type" |
| UrlMarshal.StringFromConcrete | urlvalues/url_marshal.go:212-235 | the type switch agrees with `stringFromValue` except on three cases it states separately: floats are written through `big.Float`, complex numbers are always formatted (zero included), and the nil error interface panics; a non-nil error is written as its message |
| UrlMarshal.Kept | urlvalues/url_marshal.go:178-188 | the kept texts are no more than the elements; when all encode they are all the texts in order; when none does there are none |
| UrlMarshal.EncodeElements | urlvalues/url_marshal.go:178-188 | the element loop succeeds exactly when every element encodes (a skip is accepted only in a struct); a failure is some element's own error; a struct loop never returns the skip sentinel |
| UrlMarshal.EncodeElementsAddsKept | urlvalues/url_marshal.go:116-124 | a successful element loop appends exactly the kept texts, in order, under the key |
| UrlMarshal.SetValueFromMap | urlvalues/url_marshal.go:105-135 | a map entry succeeds exactly when its texts exist; it changes only its own key, which holds those texts when fresh and is present exactly when there is at least one (an empty array or slice adds no key); a nil pointer entry is the skip sentinel |
| UrlMarshal.AddEntryElements | urlvalues/url_marshal.go:116-124 | the element loop of a container map entry succeeds exactly when every element encodes, and then appends their texts to the key in order |
| UrlMarshal.EncodeEntries | urlvalues/url_marshal.go:70-76 | the map loop succeeds exactly when every entry encodes |
| UrlMarshal.EncodeEntriesPerKey | urlvalues/url_marshal.go:70-76 | with distinct fresh keys, each key ends up holding exactly its own entry's texts and is present exactly when there is at least one text, and no other key appears |
| UrlMarshal.EncodeField | urlvalues/url_marshal.go:141-202 | ignored fields, omitted zeros, nil pointers and nil slices leave the values alone; only the field's own key can change or appear; errors are only unsupported or invalid type |
| UrlMarshal.EncodeFields | urlvalues/url_marshal.go:137-205 | the field walk fails only with unsupported or invalid type, and every new key is some bound field's key |
| UrlMarshal.EncodeFieldsLeavesOtherKeys | urlvalues/url_marshal.go:137-205 | a key that no field is bound to keeps its presence and its list |
| UrlMarshal.ZeroScalarFieldWritesZero | urlvalues/url_marshal.go:193-201 | a zero scalar field without omitempty sets its key to its type's zero text |
| UrlMarshal.EncodeFollowed | urlvalues/url_marshal.go:173-201 | after a pointer field is followed, a nil slice writes nothing, and otherwise only the field's own key can change; failures are "unsupported" or "invalid type" |
| UrlMarshal.EncodeFieldAddsElements | urlvalues/url_marshal.go:166-191 | an array or non-nil slice field, or a non-nil pointer to one, succeeds exactly when every element encodes or skips, and then appends the texts of its elements in order, leaving out those that skip |
| UrlMarshal.EncodeScalarField | urlvalues/url_marshal.go:166-201 | a bound, not omitted field holding a non-zero scalar, or a non-nil pointer to one, is `Set` to the kind switch's text for that scalar (a pointer to a pointer is followed once more by `stringFromValue`), and fails as that switch does |
| UrlMarshal.ErrorFieldWritesMessage | urlvalues/url_marshal.go:193-201 | a non-nil `error` field is set to its message |
| UrlMarshal.PointerFieldWritesTarget | urlvalues/url_marshal.go:166-171 | a non-nil pointer field to a non-zero scalar writes what a field of the element type holding that scalar writes |
| UrlMarshal.MarshalURLValues | urlvalues/url_marshal.go:53-103 | a marshaler's result is returned verbatim; every other error comes with empty values; nil and nil pointers are "cannot be nil"; other kinds are not marshalable; a map succeeds exactly when all entries encode; a struct fails only as unsupported or invalid; the skip sentinel escapes only from a map; a pointer to a struct marshals like the struct |
| UrlUnmarshal.FromStringToAny | urlvalues/url_unmarshal.go:142-160 | the tiers are tried in order: a boolean spelling always decodes to that boolean and a boolean comes only from those spellings; a float exactly when the text is no boolean and the float parse succeeds; a complex number exactly when only the complex parse of the first three succeeds; a time exactly when only the time parse succeeds; the input string itself exactly when no tier parses; the float, complex and time results are the values those parses return |
| UrlUnmarshal.DecodeEntry | urlvalues/url_unmarshal.go:72-80 | a list of any length but one becomes a slice of the same length, element `i` being the decoding of value `i` |
| UrlUnmarshal.UnmarshalMap | urlvalues/url_unmarshal.go:68-84 | the map has exactly the parameters' keys, each holding `DecodeEntry` of its values: a single-valued key the decoding of its one value, any other key a `[]any` of its decoded values in order |
| UrlUnmarshal.FromStringToValue | urlvalues/url_unmarshal.go:238-311 | the result carries the field type with integers unnamed; a well-formed type gets a value of that type; containers, channels and other kinds are unsupported; strings are verbatim; an `error` becomes `errors.New` of the text; pointers point at something; the skip sentinel never arises |
| UrlUnmarshal.PointerDecodesTarget | urlvalues/url_unmarshal.go:287-296 | a pointer type succeeds exactly when its element decodes to exactly the element type, and then points at that value; the element's errors are its errors |
| UrlUnmarshal.BoolTexts | urlvalues/url_unmarshal.go:242-247 | a boolean field decodes exactly from the twelve `ParseBool` spellings, to their truth value |
| UrlUnmarshal.DecodeInt | urlvalues/url_unmarshal.go:251-286 | for the widths Go has, an integer text is accepted exactly when it is decimal (optionally signed for signed kinds) and fits the width, and yields the value it denotes; failures are `strconv` errors |
| UrlUnmarshal.IntTexts | urlvalues/url_unmarshal.go:251-286 | an integer field of a well-formed kind decodes exactly from a decimal text (optionally signed for signed kinds) whose value fits the kind's width, to that value; out-of-range or non-decimal text fails |
| UrlUnmarshal.DecodeElements | urlvalues/url_unmarshal.go:187-211 | the element loop succeeds exactly when every visited value decodes with a zero or the exact element type; it keeps the length and unvisited positions, and puts each non-zero decoding at its position |
| UrlUnmarshal.DecodeTarget | urlvalues/url_unmarshal.go:179-229 | the shaped value has the target type and the skip sentinel never arises |
| UrlUnmarshal.FromStringsToValue | urlvalues/url_unmarshal.go:162-236 | no values is exactly the skip sentinel; a pointer type gets a fresh non-nil pointer; a success has the field's type |
| UrlUnmarshal.PointerFieldDecodesTarget | urlvalues/url_unmarshal.go:171-177 | a field of pointer type `*E` (E not a pointer) decodes exactly when a field of type E would, and gets a fresh pointer to that value; otherwise it fails as E does |
| UrlUnmarshal.FirstValueOnly | urlvalues/url_unmarshal.go:212-229 | a field that is not a sequence reads only its first value, and a string takes it verbatim |
| UrlUnmarshal.DecodeIntoZeros | urlvalues/url_unmarshal.go:188-210 | run over a freshly zeroed sequence, the element loop leaves at each visited position the decoding of its value and zeros at the positions it does not reach |
| UrlUnmarshal.SliceDecodeIsElementwise | urlvalues/url_unmarshal.go:179-211 | a slice field gets one element per value, element `j` being the decoding of value `j` |
| UrlUnmarshal.ArrayDecodeFills | urlvalues/url_unmarshal.go:187-211 | an array of length N gets the decodings of the first min(N, count) values and zeros after them |
| UrlUnmarshal.DecodeFields | urlvalues/url_unmarshal.go:92-132 | the field loop succeeds exactly when every bound field decodes; it keeps unbound and earlier fields; it sets each bound field to its decoding unless omitempty drops a zero; a failure is some bound field's error |
| UrlUnmarshal.UnmarshalStruct | urlvalues/url_unmarshal.go:86-135 | decoding succeeds exactly when every bound field decodes; unbound fields are zero; every bound field holds its decoding |
| UrlUnmarshal.OmittedZeroIsDecoding | urlvalues/url_unmarshal.go:119-121 | skipping an omitempty field whose decoding is zero leaves exactly that decoding in the fresh struct |
| UrlUnmarshal.UnmarshalURLValues | urlvalues/url_unmarshal.go:38-66 | on any error the destination is unchanged (a hook's effect on its receiver is not modelled); nil is "must not be nil"; a map is replaced wholesale by `UnmarshalMap` of the parameters; a pointer hook's error is returned; a struct succeeds exactly when its decoding does and then holds it; other pointers are "must be struct"; non-pointers are rejected |
| UrlUnmarshal.EmptyListFailsStruct | urlvalues/url_unmarshal.go:110-117 | a parameter present with no values fails the whole decoding with the skip sentinel, and the destination is kept |
| RoundTrip.ScalarRoundTrip | urlvalues/url_unmarshal.go:238-286 | a boolean, integer or string of an unnamed well-formed type, or a non-nil error, formats and decodes back to itself |
| RoundTrip.EncodeTextField | urlvalues/url_marshal.go:193-201 | a scalar field is either left out, when unbound or an omitted zero, or set to its text |
| RoundTrip.EncodeTextFields | urlvalues/url_marshal.go:137-205 | with distinct fresh keys, each bound scalar field's key is present exactly when the field is emitted, and then holds its text alone |
| RoundTrip.StructRoundTrip | urlvalues/url_unmarshal.go:86-135 | marshaling a struct of boolean, integer, string and non-nil error fields with distinct keys and unmarshaling the result returns every bound field, omitted zeros included, and zero for ignored fields |
| RoundTrip.StructEntryPointsRoundTrip | urlvalues/url_unmarshal.go:38-62 | the same round trip through `MarshalURLValues` and `UnmarshalURLValues`, whatever the destination held |
| Quirks.PointerToZeroFieldIsDropped | urlvalues/url_marshal.go:166-199 | a struct field pointing at a zero scalar writes nothing |
| Quirks.PointerToZeroEntryIsWritten | urlvalues/url_marshal.go:126-131 | the same pointer as a map entry is written as `"0"` |
| Quirks.PointerToZeroDoesNotRoundTrip | urlvalues/url_marshal.go:166-199 | a `*int` field pointing at 0 comes back nil |
| Quirks.NilErrorComesBackEmpty | urlvalues/url_marshal.go:313-315 | a nil `error` field is written "" and decoded as `errors.New("")`, which is not nil |
| Quirks.NamedIntIsRejected | urlvalues/url_unmarshal.go:224-226 | a named integer field fails with "not assignable" whenever the text parses |
| Quirks.NamedIntSliceKeepsOnlyZeros | urlvalues/url_unmarshal.go:202-208 | a slice of a named integer type accepts `"0"` but rejects `"1"` |
| Quirks.MapBoolRoundTrip | urlvalues/url_unmarshal.go:143-145 | a boolean map entry decodes back to the same boolean |
| Quirks.MapOneBecomesTrue | urlvalues/url_unmarshal.go:143-145 | the integer 1 in a map is written `"1"` and decodes as `true` |
| Quirks.EnginesIgnoreTagParser | urlvalues/url_marshal.go:151-159 | for `name,join=''` the parser's name is `name`, but the engines bind the whole tag |
| Quirks.PlainTagAgrees | urlvalues/url_marshal.go:151-159 | for a plain name the parser and the engines agree |

## Left out

- The `fmt.Println("Hello")` at the head of `MarshalURLValues` is left out. It writes to standard output and changes no result.
- Floating-point, complex and time formatting and parsing, and `big.Float.String`, are the `Lib` parameters. Their precision and formats are not modelled.
- The bodies of `URLValuesMarshaler` and `URLValuesUnmarshaler` hooks are left out. Only the values they return are modelled, as fields of the argument or destination.
- Go map iteration order is left out. A map argument is the sequence of its entries in the order the loop visits them.
- Go's `int` and `uint` are taken to be 64 bits wide.
- `strings.ToLower` is modelled on ASCII letters only. `unicode.IsSpace` is modelled only below U+0100.
- The `CanSet` and `AssignableTo` checks in `unmarshalStruct` are not written out. `FromStringsToValue` proves its result already has the field's type, so they never fire.
- Of the named (defined) types, only named integer kinds such as `time.Duration` are modelled. Named strings, floats and the like are not.
- Values of interface type `any` are not modelled: neither struct fields of that type nor `any` or `[]any` map entries. Nor are embedded structs, nor struct types other than `time.Time` as field types; those fall under `Opaque`. In Go a `[]any` map entry cannot be marshalled: each non-nil element has kind Interface, which the kind switch does not list, so only a time or an error inside it is written, anything else is "unsupported type", and a nil element is "invalid type". The `[]any` that `UnmarshalURLValues` stores for a multi-valued key is therefore not marshalled back. The model's `SliceV` in the result of `UnmarshalMap` stands for that `[]any` but carries no element type.
- The panic of `big.NewFloat` on NaN is not modelled: `bigFloatString` is total.
- Panics are the error value `Panic`. They cover a nil interface entry in a map, a nil `*map` destination, a typed nil `*struct` destination and setting an unassignable pointer element. Their messages and stack unwinding are not modelled.
- Error messages are the constructors of `Codec.Error`, not their texts.
- UrlMarshal.EncodeFields: its contract states error kinds and which keys can change. The texts it writes are stated per field: zero scalars by `ZeroScalarFieldWritesZero`, non-zero scalars and non-nil pointers to them by `EncodeScalarField` (with `ErrorFieldWritesMessage` and `PointerFieldWritesTarget`), arrays, slices and pointers to them by `EncodeFieldAddsElements`, and pointers to zero scalars by `Quirks.PointerToZeroFieldIsDropped`. For whole structs of text fields the texts are stated by `RoundTrip.EncodeTextFields`.
- UrlUnmarshal.FromStringToAny: it fixes the precedence of the tiers, but which texts parse as floats, complex numbers or times is up to the `Lib` routines.
- UrlUnmarshal.FromStringToValue: for floats, complex numbers and times the decoded value is whatever the `Lib` parser returns.
- The `urlformat` verbs, duration units and the application of `join` to values appear only in test fixtures. No engine code reads them, so they are not modelled.
