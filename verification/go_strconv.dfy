/** Base-10 integer and boolean conversions of Go's `strconv` and `fmt`
    packages, as the codec uses them: `fmt.Sprintf("%d", …)`,
    `strconv.ParseUint(s, 10, bits)`, `strconv.ParseInt(s, 10, bits)`,
    `strconv.Atoi`, `strconv.FormatBool` and `strconv.ParseBool`. */
module GoStrconv {
  import opened GoResults

  /** The `Err` field of a `*strconv.NumError`. */
  datatype NumErrorKind = ErrSyntax | ErrRange | ErrBitSize

  function Pow2(n: nat): (r: nat)
    ensures r >= 1
  {
    if n == 0 then 1 else 2 * Pow2(n - 1)
  }

  /** A bit size of 0 means the platform word, 64 bits. */
  function Width(bitSize: nat): nat {
    if bitSize == 0 then 64 else bitSize
  }

  predicate IsDigit(c: char) {
    '0' <= c <= '9'
  }

  function DigitVal(c: char): nat {
    if IsDigit(c) then c as int - '0' as int else 0
  }

  function DigitChar(d: nat): (c: char)
    requires d < 10
    ensures IsDigit(c) && DigitVal(c) == d
  {
    ('0' as int + d) as char
  }

  /** A non-empty run of decimal digits. */
  predicate IsDecimal(s: string) {
    |s| > 0 && forall i :: 0 <= i < |s| ==> IsDigit(s[i])
  }

  /** The number a run of decimal digits denotes (reference semantics). */
  function DecimalValue(s: string): nat {
    if s == [] then 0 else DecimalValue(s[..|s| - 1]) * 10 + DigitVal(s[|s| - 1])
  }

  /** Text accepted by `ParseInt`: an optional `+` or `-`, then digits. */
  predicate IsSignedDecimal(s: string) {
    |s| > 0 && IsDecimal(if s[0] == '+' || s[0] == '-' then s[1..] else s)
  }

  function SignedValue(s: string): int
    requires |s| > 0
  {
    if s[0] == '-' then -(DecimalValue(s[1..]) as int)
    else if s[0] == '+' then DecimalValue(s[1..])
    else DecimalValue(s)
  }

  /** The digits of `n`, most significant first, with no leading zero. */
  function Digits(n: nat): (r: string)
    ensures IsDecimal(r) && DecimalValue(r) == n
    ensures n > 0 ==> r[0] != '0'
  {
    if n < 10 then [DigitChar(n)]
    else
      var r := Digits(n / 10) + [DigitChar(n % 10)];
      assert r[..|r| - 1] == Digits(n / 10);
      r
  }

  /** `fmt.Sprintf("%d", i)` for a signed or unsigned integer. */
  function FormatInt(i: int): string {
    if i < 0 then "-" + Digits(-i) else Digits(i)
  }

  lemma {:induction false} DecimalPrefixMonotone(s: string, j: nat)
    requires j <= |s|
    ensures DecimalValue(s[..j]) <= DecimalValue(s)
    decreases |s| - j
  {
    if j < |s| {
      DecimalPrefixMonotone(s, j + 1);
      assert s[..j + 1][..j] == s[..j];
    } else {
      assert s[..j] == s;
    }
  }

  /** The digit loop of `ParseUint` from index `i`, holding the value `n`
      of the digits before it: the first non-digit is a syntax error, the
      first digit that takes the value past `maxVal` a range error. */
  function ScanDigits(s: string, i: nat, n: nat, maxVal: nat): (r: Result<nat, NumErrorKind>)
    requires i <= |s| && n == DecimalValue(s[..i]) && n <= maxVal
    ensures r.Ok? <==> (forall j :: i <= j < |s| ==> IsDigit(s[j])) && DecimalValue(s) <= maxVal
    ensures r.Ok? ==> r.value == DecimalValue(s)
    decreases |s| - i
  {
    if i == |s| then
      assert s[..i] == s;
      Ok(n)
    else if !IsDigit(s[i]) then Err(ErrSyntax)
    else
      var n1 := n * 10 + DigitVal(s[i]);
      assert s[..i + 1][..i] == s[..i];
      assert n1 == DecimalValue(s[..i + 1]);
      if n1 > maxVal then
        DecimalPrefixMonotone(s, i + 1);
        Err(ErrRange)
      else ScanDigits(s, i + 1, n1, maxVal)
  }

  /** `strconv.ParseUint(s, 10, bitSize)`. */
  function ParseUint(s: string, bitSize: nat): (r: Result<nat, NumErrorKind>)
    ensures bitSize <= 64 ==>
      (r.Ok? <==> IsDecimal(s) && DecimalValue(s) < Pow2(Width(bitSize)))
    ensures r.Ok? ==> r.value == DecimalValue(s)
  {
    if s == "" then Err(ErrSyntax)
    else if bitSize > 64 then Err(ErrBitSize)
    else
      assert s[..0] == [];
      ScanDigits(s, 0, 0, Pow2(Width(bitSize)) - 1)
  }

  /** `strconv.ParseInt(s, 10, bitSize)`: an optional sign, the digits as
      `ParseUint` reads them, then the signed range check. */
  function ParseInt(s: string, bitSize: nat): (r: Result<int, NumErrorKind>)
    ensures 2 <= Width(bitSize) <= 64 ==>
      (r.Ok? <==> IsSignedDecimal(s)
                  && -(Pow2(Width(bitSize) - 1) as int) <= SignedValue(s) < Pow2(Width(bitSize) - 1))
    ensures 2 <= Width(bitSize) <= 64 && r.Ok? ==> r.value == SignedValue(s)
  {
    if s == "" then Err(ErrSyntax)
    else
      var neg := s[0] == '-';
      var body := if s[0] == '+' || s[0] == '-' then s[1..] else s;
      var un := ParseUint(body, bitSize);
      if un.Err? && un.error != ErrRange then Err(un.error)
      else
        var w := Width(bitSize);
        var u: nat := if un.Ok? then un.value else Pow2(w) - 1;
        var cutoff := Pow2(w - 1);
        if !neg && u >= cutoff then Err(ErrRange)
        else if neg && u > cutoff then Err(ErrRange)
        else Ok(if neg then -(u as int) else u)
  }

  /** `strconv.Atoi(s)`: on a 64-bit platform its short-input fast path
      gives the same result as `ParseInt(s, 10, 0)`. */
  function Atoi(s: string): (r: Result<int, NumErrorKind>)
    ensures r.Ok? <==> IsSignedDecimal(s) && -(Pow2(63) as int) <= SignedValue(s) < Pow2(63)
    ensures r.Ok? ==> r.value == SignedValue(s)
  {
    ParseInt(s, 0)
  }

  lemma FormatIntIsSignedDecimal(i: int)
    ensures IsSignedDecimal(FormatInt(i)) && SignedValue(FormatInt(i)) == i
    ensures i >= 0 ==> FormatInt(i) == Digits(i)
  {
    var s := FormatInt(i);
    if i < 0 {
      assert s[1..] == Digits(-i);
    } else {
      assert IsDigit(s[0]);
    }
  }

  /** The decimal text of a signed integer that fits `bitSize` parses back
      to the same integer. */
  lemma ParseIntFormatInt(i: int, bitSize: nat)
    requires 2 <= Width(bitSize) <= 64
    requires -(Pow2(Width(bitSize) - 1) as int) <= i < Pow2(Width(bitSize) - 1)
    ensures ParseInt(FormatInt(i), bitSize) == Ok(i)
  {
    FormatIntIsSignedDecimal(i);
  }

  /** The decimal text of an unsigned integer that fits `bitSize` parses
      back to the same integer. */
  lemma ParseUintFormatInt(n: nat, bitSize: nat)
    requires bitSize <= 64 && n < Pow2(Width(bitSize))
    ensures ParseUint(FormatInt(n), bitSize) == Ok(n)
  {
    FormatIntIsSignedDecimal(n);
  }

  const TrueTokens: set<string> := {"1", "t", "T", "TRUE", "true", "True"}
  const FalseTokens: set<string> := {"0", "f", "F", "FALSE", "false", "False"}

  /** `strconv.FormatBool`. */
  function FormatBool(b: bool): (r: string)
    ensures r in (if b then TrueTokens else FalseTokens)
    ensures b ==> r == "true"
    ensures !b ==> r == "false"
  {
    if b then "true" else "false"
  }

  /** `strconv.ParseBool`: twelve accepted spellings, `"1"` and `"0"`
      among them; anything else is a syntax error. */
  function ParseBool(s: string): (r: Result<bool, NumErrorKind>)
    ensures r.Ok? <==> s in TrueTokens + FalseTokens
    ensures r == Ok(true) <==> s in TrueTokens
    ensures r.Err? ==> r.error == ErrSyntax
  {
    if s == "1" || s == "t" || s == "T" || s == "TRUE" || s == "true" || s == "True" then Ok(true)
    else if s == "0" || s == "f" || s == "F" || s == "FALSE" || s == "false" || s == "False" then Ok(false)
    else Err(ErrSyntax)
  }

  lemma ParseBoolFormatBool(b: bool)
    ensures ParseBool(FormatBool(b)) == Ok(b)
  {
  }
}
