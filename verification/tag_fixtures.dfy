/** `ParseTag` on the `url` tags of the repository's test fixtures. */
module TagFixtures {
  import opened GoResults
  import opened GoStrings
  import opened Reflect
  import opened Codec
  import opened TagParser

  /** Trimming never lengthens a string. */
  lemma TrimSpaceShorter(s: string)
    ensures |TrimSpace(s)| <= |s|
  {
  }

  /** A part shorter than `join='` starts with neither word. */
  lemma {:induction false} ShortPart(s: string)
    requires |s| < |JoinOpener|
    ensures !IsJoinOpener(s) && !IsOmitEmpty(s)
  {
    TrimSpaceShorter(ToLower(s));
  }

  /** A part that starts with the literal opener and does not end in
      white space is an opener, and not an `omitempty` word. */
  lemma {:induction false} LiteralOpener(rest: string)
    requires |rest| == 0 || !IsSpace(rest[|rest| - 1])
    ensures IsJoinOpener(JoinOpener + rest) && !IsOmitEmpty(JoinOpener + rest)
  {
    var s := JoinOpener + rest;
    var low := ToLower(s);
    assert low[..|JoinOpener|] == JoinOpener by {
      forall i | 0 <= i < |JoinOpener|
        ensures low[i] == JoinOpener[i]
      {
        assert s[i] == JoinOpener[i];
      }
    }
    assert LeadingSpaces(low) == 0 by { assert low[0] == 'j'; }
    assert TrailingSpaces(low) == 0 by {
      if |rest| == 0 { assert low[|low| - 1] == '\''; }
      else { assert low[|low| - 1] == LowerChar(rest[|rest| - 1]); }
    }
    assert TrimSpace(low) == low;
    assert TrimSpace(low)[0] == 'j';
  }

  /** The bare word `omitempty` is an `omitempty` part and no opener. */
  lemma LiteralOmitEmpty()
    ensures IsOmitEmpty(OmitEmptyWord) && !IsJoinOpener(OmitEmptyWord)
  {
    var low := ToLower(OmitEmptyWord);
    assert low == OmitEmptyWord by {
      forall i | 0 <= i < |OmitEmptyWord|
        ensures low[i] == OmitEmptyWord[i]
      {
      }
    }
    assert LeadingSpaces(low) == 0 by { assert low[0] == 'o'; }
    assert TrailingSpaces(low) == 0 by { assert low[|low| - 1] == 'y'; }
    assert TrimSpace(low) == low;
    assert TrimSpace(low)[0] == 'o';
  }

  /** `j,join=', '`: the delimiter spans two parts and keeps its comma. */
  lemma JoinedSliceTag()
    ensures ParseTag("j,join=', '") == Parsed(UrlValueTag("j", false, ", "))
  {
    JoinedSliceSplit();
    JoinedSliceParts();
  }

  lemma JoinedSliceSplit()
    ensures Split("j,join=', '", ',') == ["j", "join='", " '"]
  {
    var parts := ["j", "join='", " '"];
    assert Join(parts, ',') == "j,join=', '" by {
      assert parts[1..][1..] == [" '"];
    }
    SplitJoin(parts, ',');
  }

  lemma JoinedSliceParts()
    ensures ParseParts(["j", "join='", " '"]) == Parsed(UrlValueTag("j", false, ", "))
  {
    var parts := ["j", "join='", " '"];
    ShortPart("j");
    ShortPart(" '");
    LiteralOpener("");
    assert "join='" == JoinOpener + "";
    assert JoinStart(parts) == 1 by {
      assert parts[1..] == ["join='", " '"];
    }
    assert JoinEnd(parts, 1) == 2 by {
      assert parts[2..] == [" '"];
      assert EndsWithQuote(" '");
    }
    assert SpanText(parts, 1, 2) == ", " by {
      assert parts[1..3] == ["join='", " '"];
      assert Join(parts[1..3], ',') == "join=', '";
      assert TrimPrefix("join=', '", JoinOpener) == ", '";
    }
    assert IndexFunc(parts, IsOmitEmpty) == -1 by {
      assert parts[1..][1..] == [" '"];
    }
  }

  /** `jnc,join='X'`: opener and closing quote in the same part. */
  lemma JoinNoCommaTag()
    ensures ParseTag("jnc,join='X'") == Parsed(UrlValueTag("jnc", false, "X"))
  {
    JoinNoCommaSplit();
    JoinNoCommaParts();
  }

  lemma JoinNoCommaSplit()
    ensures Split("jnc,join='X'", ',') == ["jnc", "join='X'"]
  {
    var parts := ["jnc", "join='X'"];
    assert Join(parts, ',') == "jnc,join='X'";
    SplitJoin(parts, ',');
  }

  lemma JoinNoCommaParts()
    ensures ParseParts(["jnc", "join='X'"]) == Parsed(UrlValueTag("jnc", false, "X"))
  {
    var parts := ["jnc", "join='X'"];
    ShortPart("jnc");
    LiteralOpener("X'");
    assert "join='X'" == JoinOpener + "X'";
    assert JoinStart(parts) == 1 by {
      assert parts[1..] == ["join='X'"];
    }
    assert JoinEnd(parts, 1) == 1 by {
      assert parts[2..] == [];
    }
    assert SpanText(parts, 1, 1) == "X" by {
      assert parts[1..2] == ["join='X'"];
      assert TrimPrefix("join='X'", JoinOpener) == "X'";
    }
    assert IndexFunc(parts, IsOmitEmpty) == -1 by {
      assert parts[1..] == ["join='X'"];
    }
  }

  /** `jmc,join='a,b,c'`: the delimiter spans three parts, both inner
      commas kept. */
  lemma JoinMultiCommaTag()
    ensures ParseTag("jmc,join='a,b,c'") == Parsed(UrlValueTag("jmc", false, "a,b,c"))
  {
    JoinMultiCommaSplit();
    JoinMultiCommaParts();
  }

  lemma JoinMultiCommaSplit()
    ensures Split("jmc,join='a,b,c'", ',') == ["jmc", "join='a", "b", "c'"]
  {
    var parts := ["jmc", "join='a", "b", "c'"];
    assert Join(parts, ',') == "jmc,join='a,b,c'" by {
      assert parts[1..][1..][1..] == ["c'"];
    }
    SplitJoin(parts, ',');
  }

  lemma JoinMultiCommaParts()
    ensures ParseParts(["jmc", "join='a", "b", "c'"]) == Parsed(UrlValueTag("jmc", false, "a,b,c"))
  {
    ShortPart("jmc");
    JoinMultiCommaSpan();
    JoinMultiCommaText();
    JoinMultiCommaNoOmit();
  }

  lemma JoinMultiCommaSpan()
    ensures JoinStart(["jmc", "join='a", "b", "c'"]) == 1
    ensures JoinEnd(["jmc", "join='a", "b", "c'"], 1) == 3
  {
    var parts := ["jmc", "join='a", "b", "c'"];
    ShortPart("jmc");
    LiteralOpener("a");
    assert "join='a" == JoinOpener + "a";
    assert JoinStart(parts) == 1 by {
      assert parts[1..] == ["join='a", "b", "c'"];
    }
    assert parts[2..] == ["b", "c'"];
    assert parts[2..][1..] == ["c'"];
    assert !EndsWithQuote("b") && EndsWithQuote("c'");
  }

  lemma JoinMultiCommaText()
    ensures SpanText(["jmc", "join='a", "b", "c'"], 1, 3) == "a,b,c"
  {
    var parts := ["jmc", "join='a", "b", "c'"];
    var span := ["join='a", "b", "c'"];
    assert parts[1..4] == span;
    assert span[1..] == ["b", "c'"];
    assert span[1..][1..] == ["c'"];
    assert Join(span[1..], ',') == "b,c'";
    assert Join(span, ',') == "join='a,b,c'";
    assert TrimPrefix("join='a,b,c'", JoinOpener) == "a,b,c'";
  }

  lemma JoinMultiCommaNoOmit()
    ensures IndexFunc(["jmc", "join='a", "b", "c'"], IsOmitEmpty) == -1
  {
    var parts := ["jmc", "join='a", "b", "c'"];
    ShortPart("jmc");
    ShortPart("b");
    ShortPart("c'");
    LiteralOpener("a");
    assert "join='a" == JoinOpener + "a";
    assert parts[1..][1..][1..] == ["c'"];
  }

  /** `jes,join=''`: an empty delimiter. */
  lemma JoinEmptyStrTag()
    ensures ParseTag("jes,join=''") == Parsed(UrlValueTag("jes", false, ""))
  {
    var name := "jes";
    ShortPart(name);
    EmptyJoinTag(name);
    assert name + ",join=''" == "jes,join=''";
  }

  /** `o,omitempty`: the parser and the engines both read the omit flag
      and the name `o`. */
  lemma OmitEmptyTag(typ: FieldType)
    ensures ParseTag("o,omitempty") == Parsed(UrlValueTag("o", true, ""))
    ensures FieldKey(FieldDecl("OmitEmptyVal", true, Some("o,omitempty"), typ)) == Some(ParamKey("o", true))
  {
    OmitEmptySplit();
    OmitEmptyParts();
    assert HasSuffix("o,omitempty", OmitEmptySuffix);
  }

  lemma OmitEmptySplit()
    ensures Split("o,omitempty", ',') == ["o", "omitempty"]
  {
    var parts := ["o", "omitempty"];
    assert Join(parts, ',') == "o,omitempty";
    SplitJoin(parts, ',');
  }

  lemma OmitEmptyParts()
    ensures ParseParts(["o", "omitempty"]) == Parsed(UrlValueTag("o", true, ""))
  {
    var parts := ["o", "omitempty"];
    ShortPart("o");
    LiteralOmitEmpty();
    assert JoinStart(parts) == -1 by {
      assert parts[1..] == ["omitempty"];
    }
    assert IndexFunc(parts, IsOmitEmpty) == 1 by {
      assert parts[1..] == ["omitempty"];
    }
  }

  /** `-,omitempty` is no skip for the parser, which names it `-`, but
      the engines strip the suffix and ignore the field. */
  lemma DashOmitEmptyTag(typ: FieldType)
    ensures ParseTag("-,omitempty").Parsed? && ParseTag("-,omitempty").tag.name == "-"
    ensures FieldKey(FieldDecl("F", true, Some("-,omitempty"), typ)).None?
  {
    var tag := "-,omitempty";
    assert IndexOf(tag, ',') == 1;
    assert NameOf(tag) == "-";
    ShortPart("-");
    assert HasSuffix(tag, OmitEmptySuffix);
    assert TrimSuffix(tag, OmitEmptySuffix) == "-";
  }
}
