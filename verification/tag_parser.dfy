/** The `url` struct-tag grammar: `name[,omitempty][,join='<delimiter>']`,
    or `-` to skip a field.  The delimiter may itself contain commas, so it
    can span several comma-separated parts.  Neither engine calls this
    parser; they use the simpler rule in `Codec.FieldKey`. */
module TagParser {
  import opened GoStrings

  /** `urlValueTag`: the parsed descriptor. */
  datatype UrlValueTag = UrlValueTag(name: string, omitEmpty: bool, joinString: string)

  /** What `ParseTag` returns: a descriptor, the skip sentinel (`errSkip`),
      or the "join without a closing quote" error. */
  datatype TagOutcome = Parsed(tag: UrlValueTag) | Skip | UnterminatedJoin

  const JoinOpener: string := "join='"
  const OmitEmptyWord: string := "omitempty"

  /** `strSliceCheck(expected)`: after lower-casing and trimming white
      space the part starts with the lower-cased `expected`.  Both words
      the parser checks for are already lower case, so `expected` is used
      as it stands. */
  predicate StartsWithWord(s: string, expected: string) {
    HasPrefix(TrimSpace(ToLower(s)), expected)
  }

  predicate IsJoinOpener(s: string) {
    StartsWithWord(s, JoinOpener)
  }

  predicate IsOmitEmpty(s: string) {
    StartsWithWord(s, OmitEmptyWord)
  }

  predicate EndsWithQuote(s: string) {
    HasSuffix(s, "'")
  }

  /** `slices.IndexFunc`: the first index whose element satisfies `p`,
      or -1 when there is none. */
  function IndexFunc(xs: seq<string>, p: string -> bool): (r: int)
    ensures -1 <= r < |xs|
    ensures r >= 0 ==> p(xs[r])
    ensures forall i :: 0 <= i < |xs| && (r < 0 || i < r) ==> !p(xs[i])
  {
    if xs == [] then -1
    else if p(xs[0]) then 0
    else
      var k := IndexFunc(xs[1..], p);
      if k < 0 then -1 else k + 1
  }

  /** Index of the part that opens the join delimiter, or -1. */
  function JoinStart(parts: seq<string>): (r: int)
    ensures -1 <= r < |parts|
    ensures r >= 0 ==> IsJoinOpener(parts[r])
    ensures forall i :: 0 <= i < |parts| && (r < 0 || i < r) ==> !IsJoinOpener(parts[i])
  {
    IndexFunc(parts, IsJoinOpener)
  }

  /** Index of the part that closes the delimiter opened at `start`: the
      first later part ending in a quote, or `start` itself when no later
      part does.  -1 when there is no opener past part 0. */
  function JoinEnd(parts: seq<string>, start: int): (r: int)
    requires -1 <= start < |parts|
    ensures start <= 0 ==> r == -1
    ensures start > 0 ==> start <= r < |parts|
    ensures start > 0 && r > start ==>
      EndsWithQuote(parts[r]) && forall j :: start < j < r ==> !EndsWithQuote(parts[j])
    ensures start > 0 && r == start ==> forall j :: start < j < |parts| ==> !EndsWithQuote(parts[j])
  {
    if start > 0 then
      var k := IndexFunc(parts[start + 1..], EndsWithQuote);
      assert forall j :: start < j < |parts| ==> parts[j] == parts[start + 1..][j - start - 1];
      start + 1 + k
    else -1
  }

  /** The three-way switch that extracts the delimiter text. */
  function JoinText(parts: seq<string>, start: nat, end: nat): string
    requires start <= end < |parts|
  {
    if end - start == 0 then
      TrimSuffix(TrimPrefix(parts[start], JoinOpener), "'")
    else if end - start == 1 then
      TrimPrefix(parts[start], JoinOpener) + "," + TrimSuffix(parts[end], "'")
    else
      Join([TrimPrefix(parts[start], JoinOpener)] + parts[start + 1..end]
           + [TrimSuffix(parts[end], "'")], ',')
  }

  /** The external name: the text of `tag` before its first comma. */
  function NameOf(tag: string): string {
    if ',' in tag then tag[..IndexOf(tag, ',')] else tag
  }

  /** The delimiter as one formula over the span: the parts from `start`
      to `end` joined back with commas, minus a literal leading `join='`
      and one trailing quote. */
  function SpanText(parts: seq<string>, start: nat, end: nat): string
    requires start <= end < |parts|
  {
    TrimSuffix(TrimPrefix(Join(parts[start..end + 1], ','), JoinOpener), "'")
  }

  /** The body of `ParseTag` after the skip test, over the comma parts.
      The delimiter is `SpanText` over the join span (commas inside it are
      kept), or "" with no opener; `omitEmpty` holds exactly when the first
      part starting with `omitempty` is not part 0 and lies outside the
      span, so a match inside the span hides a later standalone one. */
  function ParseParts(parts: seq<string>): (r: TagOutcome)
    requires |parts| >= 1
    ensures !r.Skip?
    ensures r.UnterminatedJoin? <==> IsJoinOpener(parts[0])
    ensures r.Parsed? ==> r.tag.name == parts[0]
    ensures r.Parsed? && JoinStart(parts) < 0 ==> r.tag.joinString == ""
    ensures r.Parsed? && JoinStart(parts) >= 0 ==>
      r.tag.joinString == SpanText(parts, JoinStart(parts), JoinEnd(parts, JoinStart(parts)))
    ensures r.Parsed? ==>
      var omitIndex := IndexFunc(parts, IsOmitEmpty);
      (r.tag.omitEmpty <==> omitIndex > 0
                            && !(JoinStart(parts) <= omitIndex <= JoinEnd(parts, JoinStart(parts))))
  {
    var start := JoinStart(parts);
    var end := JoinEnd(parts, start);
    if end < start then UnterminatedJoin
    else
      var join := if start > 0 then JoinText(parts, start, end) else "";
      assert start > 0 ==> join == SpanText(parts, start, end) by {
        if start > 0 { JoinTextUniform(parts, start, end); }
      }
      var omitIndex := IndexFunc(parts, IsOmitEmpty);
      var omit := if omitIndex < start || omitIndex > end then omitIndex > 0 else false;
      Parsed(UrlValueTag(parts[0], omit, join))
  }

  /** `ParseTag`: `-` is the skip sentinel; every other tag, `""` and
      `-,omitempty` included, is split on commas and named by the text
      before its first comma. */
  function ParseTag(tag: string): (r: TagOutcome)
    ensures r.Skip? <==> tag == "-"
    ensures r.UnterminatedJoin? <==> tag != "-" && IsJoinOpener(NameOf(tag))
    ensures r.Parsed? ==> r.tag.name == NameOf(tag)
  {
    if tag == "-" then Skip
    else
      FirstPartIsName(tag);
      ParseParts(Split(tag, ','))
  }

  lemma {:induction false} FirstPartIsName(tag: string)
    ensures Split(tag, ',')[0] == NameOf(tag)
  {
  }

  /** The unterminated-join error fires exactly when part 0 is the opener;
      an opener further on never errors, even with no closing quote. */
  lemma {:induction false} UnterminatedOnlyAtPartZero(parts: seq<string>)
    requires |parts| >= 1
    ensures ParseParts(parts).UnterminatedJoin? <==> JoinStart(parts) == 0
  {
  }

  lemma {:induction false} TrimPrefixOverComma(a: string, rest: string)
    ensures TrimPrefix(a + "," + rest, JoinOpener) == TrimPrefix(a, JoinOpener) + "," + rest
  {
    var s := a + "," + rest;
    if HasPrefix(a, JoinOpener) {
      assert s[..|JoinOpener|] == a[..|JoinOpener|];
      assert s[|JoinOpener|..] == a[|JoinOpener|..] + "," + rest;
    } else if HasPrefix(s, JoinOpener) && |a| < |JoinOpener| {
      assert s[|a|] == ',';
      assert JoinOpener[|a|] == s[..|JoinOpener|][|a|];
    }
  }

  lemma {:induction false} TrimSuffixOverComma(rest: string, b: string)
    ensures TrimSuffix(rest + "," + b, "'") == rest + "," + TrimSuffix(b, "'")
  {
    var s := rest + "," + b;
    if |b| > 0 {
      assert s[|s| - 1..] == b[|b| - 1..];
      if HasSuffix(b, "'") {
        assert s[..|s| - 1] == rest + "," + b[..|b| - 1];
      }
    } else {
      assert s[|s| - 1..] == ",";
    }
  }

  lemma {:induction false} JoinSnoc(init: seq<string>, b: string)
    requires |init| >= 1
    ensures Join(init + [b], ',') == Join(init, ',') + "," + b
    decreases |init|
  {
    if |init| == 1 {
      assert (init + [b])[1..] == [b];
    } else {
      JoinSnoc(init[1..], b);
      assert (init + [b])[1..] == init[1..] + [b];
    }
  }

  lemma {:induction false} JoinCons(a: string, rest: seq<string>)
    requires |rest| >= 1
    ensures Join([a] + rest, ',') == a + "," + Join(rest, ',')
  {
    assert ([a] + rest)[1..] == rest;
  }

  lemma {:induction false} JoinTextUniformTwo(p0: string, pn: string)
    ensures TrimPrefix(p0, JoinOpener) + "," + TrimSuffix(pn, "'")
         == TrimSuffix(TrimPrefix(Join([p0, pn], ','), JoinOpener), "'")
  {
    JoinCons(p0, [pn]);
    assert [p0] + [pn] == [p0, pn];
    TrimPrefixOverComma(p0, pn);
    TrimSuffixOverComma(TrimPrefix(p0, JoinOpener), pn);
  }

  lemma {:induction false} JoinThree(a: string, mid: seq<string>, b: string)
    requires |mid| >= 1
    ensures Join([a] + mid + [b], ',') == (a + "," + Join(mid, ',')) + "," + b
  {
    assert [a] + mid + [b] == [a] + (mid + [b]);
    JoinCons(a, mid + [b]);
    JoinSnoc(mid, b);
  }

  lemma {:induction false} JoinTextUniformMany(p0: string, mid: seq<string>, pn: string)
    requires |mid| >= 1
    ensures Join([TrimPrefix(p0, JoinOpener)] + mid + [TrimSuffix(pn, "'")], ',')
         == TrimSuffix(TrimPrefix(Join([p0] + mid + [pn], ','), JoinOpener), "'")
  {
    var m := Join(mid, ',');
    var tp := TrimPrefix(p0, JoinOpener);
    var ts := TrimSuffix(pn, "'");
    var whole := Join([p0] + mid + [pn], ',');
    var trimmed := Join([tp] + mid + [ts], ',');
    JoinThree(p0, mid, pn);
    JoinThree(tp, mid, ts);
    var x := m + "," + pn;
    assert whole == p0 + "," + x;
    TrimPrefixOverComma(p0, x);
    var front := TrimPrefix(whole, JoinOpener);
    assert front == (tp + "," + m) + "," + pn;
    TrimSuffixOverComma(tp + "," + m, pn);
    assert trimmed == TrimSuffix(front, "'");
  }

  /** All three switch branches compute one formula: the parts of the
      span joined back with commas, minus a literal leading `join='` and
      one trailing quote.  Commas inside the delimiter survive. */
  lemma {:induction false} JoinTextUniform(parts: seq<string>, start: nat, end: nat)
    requires start <= end < |parts|
    ensures JoinText(parts, start, end) == SpanText(parts, start, end)
  {
    if end - start == 0 {
      assert parts[start..end + 1] == [parts[start]];
    } else if end - start == 1 {
      assert parts[start..end + 1] == [parts[start], parts[end]];
      JoinTextUniformTwo(parts[start], parts[end]);
    } else {
      assert parts[start..end + 1] == [parts[start]] + parts[start + 1..end] + [parts[end]];
      JoinTextUniformMany(parts[start], parts[start + 1..end], parts[end]);
    }
  }

  lemma EmptyJoinIsOpener()
    ensures IsJoinOpener("join=''")
  {
  }

  lemma EmptyJoinIsNotOmitEmpty()
    ensures !IsOmitEmpty("join=''")
  {
  }

  lemma EmptyJoinText()
    ensures TrimSuffix(TrimPrefix("join=''", JoinOpener), "'") == ""
  {
  }

  lemma {:induction false} NoJoinTag(name: string)
    requires name != "-" && ',' !in name
    requires !IsJoinOpener(name) && !IsOmitEmpty(name)
    ensures ParseTag(name) == Parsed(UrlValueTag(name, false, ""))
  {
    assert Split(name, ',') == [name];
    assert JoinStart([name]) == -1;
    assert IndexFunc([name], IsOmitEmpty) == -1;
  }

  lemma {:induction false} EmptyJoinParts(name: string)
    requires !IsJoinOpener(name) && !IsOmitEmpty(name)
    ensures ParseParts([name, "join=''"]) == Parsed(UrlValueTag(name, false, ""))
  {
    var parts := [name, "join=''"];
    EmptyJoinIsOpener();
    EmptyJoinIsNotOmitEmpty();
    assert JoinStart(parts) == 1 by {
      assert parts[1..] == ["join=''"];
      assert IndexFunc(parts[1..], IsJoinOpener) == 0;
    }
    assert JoinEnd(parts, 1) == 1 by {
      assert parts[2..] == [];
    }
    assert SpanText(parts, 1, 1) == "" by {
      assert parts[1..2] == ["join=''"];
      EmptyJoinText();
    }
    assert IndexFunc(parts, IsOmitEmpty) == -1;
  }

  lemma {:induction false} EmptyJoinTag(name: string)
    requires name != "-" && ',' !in name
    requires !IsJoinOpener(name) && !IsOmitEmpty(name)
    ensures ParseTag(name + ",join=''") == Parsed(UrlValueTag(name, false, ""))
  {
    var parts := [name, "join=''"];
    assert Join(parts, ',') == name + ",join=''" by {
      assert parts[1..] == ["join=''"];
    }
    SplitJoin(parts, ',');
    EmptyJoinParts(name);
  }

  /** With no opener the delimiter is "", exactly as for `join=''`: the
      descriptor cannot tell the two apart. */
  lemma {:induction false} NoJoinLooksLikeEmptyJoin(name: string)
    requires name != "-" && ',' !in name
    requires !IsJoinOpener(name) && !IsOmitEmpty(name)
    ensures ParseTag(name) == ParseTag(name + ",join=''") == Parsed(UrlValueTag(name, false, ""))
  {
    NoJoinTag(name);
    EmptyJoinTag(name);
  }
}
