/** Worked examples on concrete values, mirroring the command help texts:
    the slug of "Two Sum", the two readings of a score, a tag list with a
    repeated name, the order of a problem's tags, a timestamp and a fence
    language. */
module Scenarios {
  import opened Wrappers
  import opened Text
  import opened Numbers
  import opened Model
  import opened Slug
  import Store
  import Add
  import Edit
  import Gen

  /** The characters of "Two Sum" in ASCII. */
  lemma TwoSumTokens()
    ensures Tokens(AsciiRunes, "Two Sum") == "two-sum"
  {
    var rt := AsciiRunes;
    assert CharToken(rt, 'T') == "t";
    assert CharToken(rt, 'w') == "w";
    assert CharToken(rt, 'o') == "o";
    assert CharToken(rt, ' ') == "-";
    assert CharToken(rt, 'S') == "s";
    assert CharToken(rt, 'u') == "u";
    assert CharToken(rt, 'm') == "m";
    assert Tokens(rt, "m") == "m";
    assert Tokens(rt, "um") == "um";
    assert Tokens(rt, "Sum") == "sum";
    assert Tokens(rt, " Sum") == "-sum";
    assert Tokens(rt, "o Sum") == "o-sum";
    assert Tokens(rt, "wo Sum") == "wo-sum";
  }

  /** Problem 1 titled "Two Sum" gets the slug of the gen example. */
  lemma TwoSumSlug()
    ensures SetSlug(AsciiRunes, 1, "Two Sum") == "0001" + "_" + "two-sum"
  {
    TwoSumTokens();
    TwoSumWellFormed();
    CleanTokens(AsciiRunes, 1, "Two Sum");
    IdOne();
  }

  lemma TwoSumWellFormed()
    ensures WellFormedText("two-sum")
  {
    var s := "two-sum";
    forall i | 0 <= i < |s| - 1 ensures !(s[i] == '-' && s[i + 1] == '-') {
      if s[i] == '-' { assert i == 3; }
    }
  }

  lemma IdOne()
    ensures FormatPadded(1, 4) == "0001"
  {
    ZeroPadIsZeros("1", 4);
    assert Zeros(3) == "000";
  }

  /** Twenty nines are past 2^64 - 1, so the scan stops with a range
      error before it reaches the 'x'. */
  lemma OverflowBeforeBadCharacter()
    ensures Atoi("99999999999999999999x") == Err(ErrRange)
  {
    var d := "99999999999999999999";
    assert d == seq(20, _ => '9');
    NinesValue(20);
    Pow10Value();
    AtoiOverflowFirst("", d, "x");
    assert "" + (d + "x") == "99999999999999999999x";
  }

  /** "300" is a number but not a uint8: add leaves the score unset and
      edit keeps the old one; "abc" is ignored by add and refused by edit. */
  lemma ScoreReadings()
    ensures Add.AddScore("300") == None
    ensures Edit.EditScore(Some(7), "300") == Ok(Some(7))
    ensures Add.AddScore("abc") == None
    ensures Edit.EditScore(Some(7), "abc") == Err(InvalidScore("abc"))
    ensures Add.AddScore("42") == Some(42)
  {
    assert ParseDigits("300") == 300 by {
      assert "300"[..2] == "30" && "30"[..1] == "3";
    }
    assert !IsDigit('a');
    assert ParseDigits("42") == 42 by {
      assert "42"[..1] == "4";
    }
  }

  lemma SplitExample()
    ensures Split("DP, dp", ',') == ["DP", " dp"]
  {
    assert Join(["DP", " dp"], [',']) == "DP" + [','] + Join([" dp"], [',']);
    assert Join(["DP", " dp"], [',']) == "DP, dp";
    assert ',' !in "DP" && ',' !in " dp";
    JoinSplit(["DP", " dp"], ',');
  }

  lemma TrimExample()
    ensures TrimSpace("DP") == "DP" && TrimSpace(" dp") == "dp"
  {
    assert TrimLeft("DP", Spaces) == "DP";
    assert TrimRight("DP", Spaces) == "DP";
    assert TrimLeft(" dp", Spaces) == TrimLeft("dp", Spaces) == "dp";
    assert TrimRight("dp", Spaces) == "dp";
  }

  lemma LowerExample()
    ensures LowerAll(AsciiLower, "DP") == "dp" && LowerAll(AsciiLower, "dp") == "dp"
  {
    var a, b := LowerAll(AsciiLower, "DP"), LowerAll(AsciiLower, "dp");
    assert AsciiLower('D') == 'd' && AsciiLower('P') == 'p';
    assert AsciiLower('d') == 'd' && AsciiLower('p') == 'p';
    assert a[0] == AsciiLower('D') && a[1] == AsciiLower('P');
    assert b[0] == AsciiLower('d') && b[1] == AsciiLower('p');
  }

  /** A repeated tag in different spellings is named twice. */
  lemma RepeatedTag()
    ensures Add.NormalizeTags(AsciiLower, "DP, dp") == ["dp", "dp"]
  {
    SplitExample();
    TrimExample();
    LowerExample();
    var pieces := ["DP", " dp"];
    assert pieces[1..] == [" dp"];
    assert Add.NormalizePieces(AsciiLower, [" dp"]) == ["dp"];
  }

  /** With tags a (id 1) and b (id 2) stored, `add -g b,a` links b first;
      the preload still answers a, then b. */
  lemma TagOrderExample()
    ensures var s := Store.Store([], [Tag(1, "a"), Tag(2, "b")], [Store.Link(7, 2), Store.Link(7, 1)]);
      Store.TagsOf(s, 7) == [Tag(1, "a"), Tag(2, "b")]
  {
    var s := Store.Store([], [Tag(1, "a"), Tag(2, "b")], [Store.Link(7, 2), Store.Link(7, 1)]);
    var linked := Store.LinkedTags(s.tags, s.links, 7);
    assert linked == [Tag(1, "a"), Tag(2, "b")];
    assert Store.SortById([Tag(2, "b")]) == [Tag(2, "b")];
  }

  /** A creation time as the document's table shows it:
      2024-03-09 07:05:00. */
  lemma TimestampExample()
    ensures Gen.FormatTimestamp(DateTime(2024, 3, 9, 7, 5, 0))
      == "2024" + "-" + "03" + "-" + "09" + " " + "07" + ":" + "05" + ":" + "00"
  {
    PaddedExamples();
  }

  lemma PaddedExamples()
    ensures FormatPadded(2024, 4) == "2024"
    ensures FormatPadded(3, 2) == "03" && FormatPadded(9, 2) == "09"
    ensures FormatPadded(7, 2) == "07" && FormatPadded(5, 2) == "05" && FormatPadded(0, 2) == "00"
  {
    assert FormatNat(2024) == "2024";
    assert ZeroPad("3", 2) == "03" && ZeroPad("9", 2) == "09";
    assert ZeroPad("7", 2) == "07" && ZeroPad("5", 2) == "05" && ZeroPad("0", 2) == "00";
  }

  /** A Go file's fence language. */
  lemma LanguageExample()
    ensures Gen.Language("code/0001_two-sum_code.go") == "go"
  {
    Gen.LanguageOfSuffix("code/0001_two-sum_code", "go");
    assert "code/0001_two-sum_code" + "." + "go" == "code/0001_two-sum_code.go";
  }
}
