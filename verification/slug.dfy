/** Slug derivation (Problem.SetSlug): every rune of the title becomes a
    token, runs of '-' collapse to one, '-' is trimmed from both ends, and
    the result is prefixed with the zero-padded id and '_'. */
module Slug {
  import opened Text
  import opened Numbers

  /** The token one rune of the title contributes: the lowercased first
      reading of a Han rune (possibly nothing), a letter or number
      lowercased, and '-' for anything else. Han is tested first. */
  function CharToken(rt: Runes, c: char): string
  {
    if rt.isHan(c) then LowerAll(rt.lower, rt.reading(c))
    else if rt.isLetter(c) || rt.isNumber(c) then [rt.lower(c)]
    else "-"
  }

  /** strings.Join(slugParts, ""): the tokens of all runes, in order. */
  function Tokens(rt: Runes, title: string): string
  {
    if |title| == 0 then "" else CharToken(rt, title[0]) + Tokens(rt, title[1..])
  }

  /** regexp `-+` replaced by "-": every run of dashes becomes one dash. */
  function Collapse(s: string): string
  {
    if |s| <= 1 then s
    else if s[0] == '-' && s[1] == '-' then Collapse(s[1..])
    else [s[0]] + Collapse(s[1..])
  }

  /** The text after the id prefix. */
  function SlugText(rt: Runes, title: string): string
  {
    Trim(Collapse(Tokens(rt, title)), {'-'})
  }

  /** Problem.SetSlug: fmt.Sprintf("%04d_%s", id, text). */
  function SetSlug(rt: Runes, id: int, title: string): string
  {
    FormatPadded(id, 4) + "_" + SlugText(rt, title)
  }

  // ---------------------------------------------------------------------
  // An independent description of the slug text
  // ---------------------------------------------------------------------

  /** The words of a string: its maximal dash-free runs, in order. */
  function Words(s: string): seq<string>
  {
    NonEmpty(Split(s, '-'))
  }

  predicate NoDoubleDash(s: string)
  {
    forall i :: 0 <= i < |s| - 1 ==> !(s[i] == '-' && s[i + 1] == '-')
  }

  /** A well-formed slug text: no "--", and no '-' at either end. */
  predicate WellFormedText(s: string)
  {
    NoDoubleDash(s) && (|s| == 0 || (s[0] != '-' && s[|s| - 1] != '-'))
  }

  /** A rune that contributes a non-dash token in the real tables: a Han
      rune with a reading, or a letter or number. */
  predicate Readable(rt: Runes, c: char)
  {
    if rt.isHan(c) then rt.reading(c) != "" else rt.isLetter(c) || rt.isNumber(c)
  }

  // ---------------------------------------------------------------------
  // Helpers about Split on '-'
  // ---------------------------------------------------------------------

  function Head(s: string): string
  {
    Split(s, '-')[0]
  }

  function Rest(s: string): seq<string>
  {
    NonEmpty(Split(s, '-')[1..])
  }

  lemma WordsHeadRest(s: string)
    ensures Words(s) == NonEmpty([Head(s)]) + Rest(s)
  {
    var p := Split(s, '-');
    assert p == [p[0]] + p[1..];
    NonEmptyAppend([p[0]], p[1..]);
  }

  lemma SplitConsDash(x: string)
    ensures Split("-" + x, '-') == [""] + Split(x, '-')
  {
    assert ("-" + x)[1..] == x;
  }

  lemma SplitConsOther(c: char, x: string)
    requires c != '-'
    ensures Split([c] + x, '-') == [[c] + Head(x)] + Split(x, '-')[1..]
  {
    assert ([c] + x)[1..] == x;
  }

  lemma WordsConsDash(x: string)
    ensures Words("-" + x) == Words(x)
  {
    SplitConsDash(x);
    assert ([""] + Split(x, '-'))[1..] == Split(x, '-');
  }

  lemma WordsSnocDash(x: string)
    ensures Words(x + "-") == Words(x)
  {
    SplitAppendSep(x, '-');
    NonEmptyAppend(Split(x, '-'), [""]);
    assert NonEmpty([""]) == [];
  }

  // ---------------------------------------------------------------------
  // Collapse keeps the words and leaves no "--"
  // ---------------------------------------------------------------------

  lemma {:induction false} CollapseFirst(s: string)
    requires |s| > 0
    ensures |Collapse(s)| > 0 && Collapse(s)[0] == s[0]
  {
    if |s| > 1 && s[0] == '-' && s[1] == '-' {
      CollapseFirst(s[1..]);
    }
  }

  lemma {:induction false} CollapseNoDoubleDash(s: string)
    ensures NoDoubleDash(Collapse(s))
  {
    if |s| > 1 {
      CollapseNoDoubleDash(s[1..]);
      CollapseFirst(s[1..]);
      if !(s[0] == '-' && s[1] == '-') {
        var c := Collapse(s[1..]);
        var r := [s[0]] + c;
        forall i | 0 <= i < |r| - 1
          ensures !(r[i] == '-' && r[i + 1] == '-')
        {
          if i > 0 {
            assert r[i] == c[i - 1] && r[i + 1] == c[i];
          }
        }
      }
    }
  }

  lemma {:induction false} CollapseHeadRest(s: string)
    ensures Head(Collapse(s)) == Head(s)
    ensures Rest(Collapse(s)) == Rest(s)
  {
    if |s| > 1 {
      var s1 := s[1..];
      assert s == [s[0]] + s1;
      CollapseHeadRest(s1);
      var c1 := Collapse(s1);
      if s[0] == '-' {
        SplitConsDash(s1);
        assert "-" + s1 == s;
        WordsHeadRest(s1);
        CollapseFirst(s1);
        if s[1] == '-' {
          // Collapse(s) == c1, and c1 starts with '-' like s1
          SplitConsDash(s1[1..]);
          assert "-" + s1[1..] == s1;
          SplitConsDash(c1[1..]);
          assert "-" + c1[1..] == c1;
          assert Head(c1) == "";
          assert Split(s, '-')[1..] == Split(s1, '-');
          WordsHeadRest(c1);
          assert Rest(s) == Words(s1);
          assert Words(s1) == NonEmpty([""]) + Rest(s1);
          assert Words(c1) == NonEmpty([""]) + Rest(c1);
        } else {
          SplitConsDash(c1);
          assert Collapse(s) == "-" + c1;
          WordsHeadRest(c1);
          assert Split(s, '-')[1..] == Split(s1, '-');
          assert Split(Collapse(s), '-')[1..] == Split(c1, '-');
        }
      } else {
        SplitConsOther(s[0], s1);
        SplitConsOther(s[0], c1);
        assert Collapse(s) == [s[0]] + c1;
      }
    }
  }

  /** A string without "--" is left as it is. */
  lemma {:induction false} CollapseNoop(s: string)
    requires NoDoubleDash(s)
    ensures Collapse(s) == s
  {
    if |s| > 1 {
      SliceNoDoubleDash(s, 1, |s|);
      assert s[1..|s|] == s[1..];
      CollapseNoop(s[1..]);
    }
  }

  lemma CollapseWords(s: string)
    ensures Words(Collapse(s)) == Words(s)
  {
    CollapseHeadRest(s);
    WordsHeadRest(s);
    WordsHeadRest(Collapse(s));
  }

  // ---------------------------------------------------------------------
  // Trimming dashes keeps the words and the absence of "--"
  // ---------------------------------------------------------------------

  lemma {:induction false} TrimLeftWords(s: string)
    ensures Words(TrimLeft(s, {'-'})) == Words(s)
  {
    if |s| > 0 && s[0] == '-' {
      TrimLeftWords(s[1..]);
      assert s == "-" + s[1..];
      WordsConsDash(s[1..]);
    }
  }

  lemma {:induction false} TrimRightWords(s: string)
    ensures Words(TrimRight(s, {'-'})) == Words(s)
  {
    if |s| > 0 && s[|s| - 1] == '-' {
      TrimRightWords(s[..|s| - 1]);
      assert s == s[..|s| - 1] + "-";
      WordsSnocDash(s[..|s| - 1]);
    }
  }

  lemma TrimDashWords(s: string)
    ensures Words(Trim(s, {'-'})) == Words(s)
  {
    TrimLeftWords(s);
    TrimRightWords(TrimLeft(s, {'-'}));
  }

  /** Any slice of a string without "--" is without "--". */
  lemma SliceNoDoubleDash(s: string, lo: int, hi: int)
    requires 0 <= lo <= hi <= |s| && NoDoubleDash(s)
    ensures NoDoubleDash(s[lo..hi])
  {
    var t := s[lo..hi];
    forall i | 0 <= i < |t| - 1
      ensures !(t[i] == '-' && t[i + 1] == '-')
    {
      assert t[i] == s[lo + i] && t[i + 1] == s[lo + i + 1];
    }
  }

  lemma TrimKeepsNoDoubleDash(s: string)
    requires NoDoubleDash(s)
    ensures NoDoubleDash(Trim(s, {'-'}))
  {
    var l := TrimLeft(s, {'-'});
    TrimLeftShape(s, {'-'});
    SliceNoDoubleDash(s, |s| - |l|, |s|);
    var r := TrimRight(l, {'-'});
    TrimRightShape(l, {'-'});
    SliceNoDoubleDash(l, 0, |r|);
  }

  // ---------------------------------------------------------------------
  // A well-formed text is the dash-join of its words
  // ---------------------------------------------------------------------

  lemma {:induction false} NonEmptyOfNonEmpty(xs: seq<string>)
    requires forall i :: 0 <= i < |xs| ==> xs[i] != ""
    ensures NonEmpty(xs) == xs
  {
    if |xs| > 0 {
      NonEmptyOfNonEmpty(xs[1..]);
    }
  }

  lemma {:induction false} PiecesNonEmpty(x: string)
    requires |x| > 0 && WellFormedText(x)
    ensures forall i :: 0 <= i < |Split(x, '-')| ==> Split(x, '-')[i] != ""
  {
    var y := x[1..];
    assert x == [x[0]] + y;
    SplitConsOther(x[0], y);
    if |y| > 0 {
      if y[0] != '-' {
        SliceNoDoubleDash(x, 1, |x|);
        assert y == x[1..|x|];
        PiecesNonEmpty(y);
      } else {
        var z := y[1..];
        assert |z| > 0;
        assert y == "-" + z;
        SplitConsDash(z);
        SliceNoDoubleDash(x, 2, |x|);
        assert z == x[2..|x|];
        assert z[0] == x[2] && x[1] == '-';
        PiecesNonEmpty(z);
        assert Split(y, '-')[1..] == Split(z, '-');
      }
    }
  }

  lemma JoinWordsOfWellFormed(x: string)
    requires WellFormedText(x)
    ensures Join(Words(x), "-") == x
  {
    if |x| > 0 {
      PiecesNonEmpty(x);
      NonEmptyOfNonEmpty(Split(x, '-'));
      SplitJoin(x, '-');
    }
  }

  // ---------------------------------------------------------------------
  // Properties of SetSlug
  // ---------------------------------------------------------------------

  /** The slug text never contains "--" and never starts or ends with '-'. */
  lemma SlugTextWellFormed(rt: Runes, title: string)
    ensures WellFormedText(SlugText(rt, title))
  {
    var c := Collapse(Tokens(rt, title));
    CollapseNoDoubleDash(Tokens(rt, title));
    TrimKeepsNoDoubleDash(c);
    TrimShape(c, {'-'});
  }

  /** The slug text is exactly the words of the title's tokens joined by
      single dashes: the collapse-and-trim pipeline loses no word, adds no
      word and keeps their order. */
  lemma SlugTextIsJoinedWords(rt: Runes, title: string)
    ensures Words(SlugText(rt, title)) == Words(Tokens(rt, title))
    ensures SlugText(rt, title) == Join(Words(Tokens(rt, title)), "-")
  {
    var t := Tokens(rt, title);
    CollapseWords(t);
    TrimDashWords(Collapse(t));
    SlugTextWellFormed(rt, title);
    JoinWordsOfWellFormed(SlugText(rt, title));
  }

  /** Tokens are computed rune by rune: the tokens of a concatenation are
      the concatenation of the tokens. */
  lemma {:induction false} TokensAppend(rt: Runes, a: string, b: string)
    ensures Tokens(rt, a + b) == Tokens(rt, a) + Tokens(rt, b)
  {
    if |a| > 0 {
      assert (a + b)[0] == a[0];
      assert (a + b)[1..] == a[1..] + b;
      TokensAppend(rt, a[1..], b);
    } else {
      assert a + b == b;
    }
  }

  /** A slug is the id padded to four digits, an underscore, and the words
      of the title's tokens joined by single dashes; the text after the
      underscore is well formed. */
  lemma SetSlugIsPaddedWords(rt: Runes, id: int, title: string)
    ensures SetSlug(rt, id, title) == FormatPadded(id, 4) + "_" + Join(Words(Tokens(rt, title)), "-")
    ensures WellFormedText(SetSlug(rt, id, title)[|FormatPadded(id, 4)| + 1..])
  {
    SlugTextIsJoinedWords(rt, title);
    SlugTextWellFormed(rt, title);
    assert SetSlug(rt, id, title)[|FormatPadded(id, 4)| + 1..] == SlugText(rt, title);
  }

  /** The id prefix of a slug (the text before its first '_') reads back as
      the id, and is at least four digits long. */
  lemma SlugIdRoundTrip(rt: Runes, id: int, title: string)
    requires id >= 0
    ensures |Split(SetSlug(rt, id, title), '_')[0]| >= 4
    ensures AllDigits(Split(SetSlug(rt, id, title), '_')[0])
    ensures ParseDigits(Split(SetSlug(rt, id, title), '_')[0]) == id
  {
    var p := FormatPadded(id, 4);
    assert AllDigits(p);
    assert '_' !in p;
    assert SetSlug(rt, id, title) == p + ("_" + SlugText(rt, title));
    SplitFreePrefix(p, "_" + SlugText(rt, title), '_');
    SplitConsUnderscore(SlugText(rt, title));
    assert p + "" == p;
    assert Split(SetSlug(rt, id, title), '_')[0] == p;
    PaddedValue(id, 4);
  }

  lemma SplitConsUnderscore(x: string)
    ensures Split("_" + x, '_')[0] == ""
  {
    assert ("_" + x)[1..] == x;
  }

  /** Problems with different non-negative ids never share a slug,
      whatever their titles. */
  lemma SlugsOfDistinctIdsDiffer(rt: Runes, id1: int, t1: string, id2: int, t2: string)
    requires id1 >= 0 && id2 >= 0 && id1 != id2
    ensures SetSlug(rt, id1, t1) != SetSlug(rt, id2, t2)
  {
    SlugIdRoundTrip(rt, id1, t1);
    SlugIdRoundTrip(rt, id2, t2);
  }

  lemma {:induction false} AllDashWords(s: string)
    requires forall i :: 0 <= i < |s| ==> s[i] == '-'
    ensures Words(s) == []
  {
    if |s| > 0 {
      assert s == "-" + s[1..];
      WordsConsDash(s[1..]);
      AllDashWords(s[1..]);
    }
  }

  lemma {:induction false} UnreadableTokensAreDashes(rt: Runes, title: string)
    requires forall i :: 0 <= i < |title| ==> !Readable(rt, title[i])
    ensures forall i :: 0 <= i < |Tokens(rt, title)| ==> Tokens(rt, title)[i] == '-'
  {
    if |title| > 0 {
      UnreadableTokensAreDashes(rt, title[1..]);
      assert !Readable(rt, title[0]);
    }
  }

  /** A title without a letter, a number or a readable Han rune yields just
      the id prefix and '_'. */
  lemma UnreadableTitle(rt: Runes, id: int, title: string)
    requires forall i :: 0 <= i < |title| ==> !Readable(rt, title[i])
    ensures SlugText(rt, title) == ""
    ensures SetSlug(rt, id, title) == FormatPadded(id, 4) + "_"
  {
    UnreadableTokensAreDashes(rt, title);
    AllDashWords(Tokens(rt, title));
    SlugTextIsJoinedWords(rt, title);
  }

  /** Tokens that are already a well-formed text are the slug text. */
  lemma CleanTokens(rt: Runes, id: int, title: string)
    requires WellFormedText(Tokens(rt, title))
    ensures SetSlug(rt, id, title) == FormatPadded(id, 4) + "_" + Tokens(rt, title)
  {
    CollapseNoop(Tokens(rt, title));
    TrimNoop(Tokens(rt, title), {'-'});
  }
}
