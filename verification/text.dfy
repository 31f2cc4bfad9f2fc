/** The string helpers of Go's `strings` package that the program relies on,
    over `seq<char>`: Split, Join, the Trim family, prefix/suffix tests and
    substring search. */
module Text {

  /** Number of occurrences of `c` in `s`. */
  function Count(s: string, c: char): nat
  {
    if |s| == 0 then 0 else (if s[0] == c then 1 else 0) + Count(s[1..], c)
  }

  /** strings.Split(s, string(sep)): the pieces between separators, so a
      string with n separators has n + 1 pieces and "" splits into [""]. */
  function Split(s: string, sep: char): (r: seq<string>)
    ensures |r| == Count(s, sep) + 1
    ensures forall i :: 0 <= i < |r| ==> sep !in r[i]
  {
    if |s| == 0 then [""]
    else
      var rest := Split(s[1..], sep);
      if s[0] == sep then [""] + rest
      else [[s[0]] + rest[0]] + rest[1..]
  }

  /** strings.Join(xs, sep). */
  function Join(xs: seq<string>, sep: string): string
  {
    if |xs| == 0 then ""
    else if |xs| == 1 then xs[0]
    else xs[0] + sep + Join(xs[1..], sep)
  }

  /** The non-empty elements of `xs`, in order. */
  function NonEmpty(xs: seq<string>): (r: seq<string>)
    ensures |r| <= |xs|
    ensures forall i :: 0 <= i < |r| ==> r[i] != ""
  {
    if |xs| == 0 then []
    else (if xs[0] == "" then [] else [xs[0]]) + NonEmpty(xs[1..])
  }

  /** strings.TrimLeft(s, cutset) with the cutset as a set of characters. */
  function TrimLeft(s: string, cut: set<char>): string
  {
    if |s| > 0 && s[0] in cut then TrimLeft(s[1..], cut) else s
  }

  /** strings.TrimRight(s, cutset) with the cutset as a set of characters. */
  function TrimRight(s: string, cut: set<char>): string
  {
    if |s| > 0 && s[|s| - 1] in cut then TrimRight(s[..|s| - 1], cut) else s
  }

  /** strings.Trim(s, cutset). */
  function Trim(s: string, cut: set<char>): string
  {
    TrimRight(TrimLeft(s, cut), cut)
  }

  /** The characters unicode.IsSpace accepts: the Latin-1 spaces and the
      characters with the Unicode White_Space property. */
  const Spaces: set<char> := {
    '\t', '\n', '\U{000B}', '\U{000C}', '\r', ' ', '\U{0085}', '\U{00A0}',
    '\U{1680}', '\U{2000}', '\U{2001}', '\U{2002}', '\U{2003}', '\U{2004}',
    '\U{2005}', '\U{2006}', '\U{2007}', '\U{2008}', '\U{2009}', '\U{200A}',
    '\U{2028}', '\U{2029}', '\U{202F}', '\U{205F}', '\U{3000}'
  }

  /** strings.TrimSpace. */
  function TrimSpace(s: string): string
  {
    Trim(s, Spaces)
  }

  /** The Unicode tables the program consults, injected rather than
      modelled: unicode.Is(unicode.Han, _), unicode.IsLetter,
      unicode.IsNumber, unicode.ToLower, and the pinyin library's first
      reading of a Han character ("" when it has none). */
  datatype Runes = Runes(
    isHan: char -> bool,
    isLetter: char -> bool,
    isNumber: char -> bool,
    lower: char -> char,
    reading: char -> string)

  /** unicode.ToLower restricted to ASCII: the case map the examples use. */
  function AsciiLower(c: char): char
  {
    if 'A' <= c <= 'Z' then (c as int + 32) as char else c
  }

  /** The ASCII part of the Unicode tables, with no Han characters. */
  const AsciiRunes: Runes := Runes(
    _ => false,
    c => 'a' <= c <= 'z' || 'A' <= c <= 'Z',
    c => '0' <= c <= '9',
    AsciiLower,
    _ => "")

  /** strings.ToLower, one rune at a time through the injected case map. */
  function LowerAll(lower: char -> char, s: string): string
  {
    seq(|s|, i requires 0 <= i < |s| => lower(s[i]))
  }

  predicate HasPrefix(s: string, p: string)
  {
    |p| <= |s| && s[..|p|] == p
  }

  predicate HasSuffix(s: string, p: string)
  {
    |p| <= |s| && s[|s| - |p|..] == p
  }

  /** strings.TrimPrefix. */
  function TrimPrefix(s: string, p: string): string
  {
    if HasPrefix(s, p) then s[|p|..] else s
  }

  /** strings.Contains. */
  predicate Contains(s: string, sub: string)
  {
    exists i :: 0 <= i <= |s| && HasPrefix(s[i..], sub)
  }

  // ---------------------------------------------------------------------
  // Split / Join
  // ---------------------------------------------------------------------

  /** Joining the pieces of a split with the same separator restores the
      input. */
  lemma {:induction false} SplitJoin(s: string, sep: char)
    ensures Join(Split(s, sep), [sep]) == s
  {
    if |s| > 0 {
      var rest := Split(s[1..], sep);
      SplitJoin(s[1..], sep);
      assert Join(rest, [sep]) == s[1..];
      if s[0] == sep {
        assert Split(s, sep) == [""] + rest;
        assert ([""] + rest)[1..] == rest;
      } else {
        var r := [[s[0]] + rest[0]] + rest[1..];
        assert Split(s, sep) == r;
        if |rest| == 1 {
          assert Join(rest, [sep]) == rest[0];
        } else {
          assert r[1..] == rest[1..];
          assert Join(rest, [sep]) == rest[0] + [sep] + Join(rest[1..], [sep]);
        }
      }
    }
  }

  /** A separator-free prefix glues onto the first piece of the rest. */
  lemma {:induction false} SplitFreePrefix(x: string, y: string, sep: char)
    requires sep !in x
    ensures Split(x + y, sep) == [x + Split(y, sep)[0]] + Split(y, sep)[1..]
  {
    if |x| > 0 {
      SplitFreePrefix(x[1..], y, sep);
      assert (x + y)[1..] == x[1..] + y;
      assert x[0] != sep;
      var rest := Split(x[1..] + y, sep);
      assert [x[0]] + (x[1..] + Split(y, sep)[0]) == x + Split(y, sep)[0];
    } else {
      assert x + y == y;
      var r := Split(y, sep);
      assert r == [r[0]] + r[1..];
      assert x + r[0] == r[0];
    }
  }

  /** Splitting the join of separator-free pieces gives the pieces back. */
  lemma {:induction false} JoinSplit(xs: seq<string>, sep: char)
    requires |xs| >= 1
    requires forall i :: 0 <= i < |xs| ==> sep !in xs[i]
    ensures Split(Join(xs, [sep]), sep) == xs
  {
    if |xs| == 1 {
      SplitFreePrefix(xs[0], "", sep);
      assert xs[0] + "" == xs[0];
    } else {
      var tail := Join(xs[1..], [sep]);
      JoinSplit(xs[1..], sep);
      assert Join(xs, [sep]) == xs[0] + ([sep] + tail);
      SplitFreePrefix(xs[0], [sep] + tail, sep);
      assert ([sep] + tail)[1..] == tail;
      assert Split([sep] + tail, sep) == [""] + xs[1..];
      assert xs[0] + "" == xs[0];
      assert xs == [xs[0]] + xs[1..];
    }
  }

  /** A trailing separator adds one empty last piece. */
  lemma {:induction false} SplitAppendSep(x: string, sep: char)
    ensures Split(x + [sep], sep) == Split(x, sep) + [""]
  {
    if |x| == 0 {
      assert x + [sep] == [sep];
      assert Split([sep], sep) == [""] + Split([], sep);
    } else {
      SplitAppendSep(x[1..], sep);
      assert (x + [sep])[1..] == x[1..] + [sep];
      var rest := Split(x[1..], sep);
      if x[0] == sep {
        assert Split(x + [sep], sep) == [""] + (rest + [""]);
      } else {
        assert (rest + [""])[0] == rest[0];
        assert (rest + [""])[1..] == rest[1..] + [""];
      }
    }
  }

  lemma {:induction false} NonEmptyAppend(a: seq<string>, b: seq<string>)
    ensures NonEmpty(a + b) == NonEmpty(a) + NonEmpty(b)
  {
    if |a| > 0 {
      NonEmptyAppend(a[1..], b);
      assert (a + b)[1..] == a[1..] + b;
    } else {
      assert a + b == b;
    }
  }

  /** The Join of a sequence built by prepending one element. */
  lemma JoinCons(x: string, xs: seq<string>, sep: string)
    requires |xs| >= 1
    ensures Join([x] + xs, sep) == x + sep + Join(xs, sep)
  {
    assert ([x] + xs)[1..] == xs;
  }

  // ---------------------------------------------------------------------
  // Trim
  // ---------------------------------------------------------------------

  /** TrimLeft removes a prefix made of cut characters, and what is left
      does not start with one. */
  lemma {:induction false} TrimLeftShape(s: string, cut: set<char>)
    ensures var r := TrimLeft(s, cut);
      && |r| <= |s| && r == s[|s| - |r|..]
      && (forall i :: 0 <= i < |s| - |r| ==> s[i] in cut)
      && (|r| == 0 || r[0] !in cut)
  {
    if |s| > 0 && s[0] in cut {
      TrimLeftShape(s[1..], cut);
    }
  }

  /** TrimRight removes a suffix made of cut characters, and what is left
      does not end with one. */
  lemma {:induction false} TrimRightShape(s: string, cut: set<char>)
    ensures var r := TrimRight(s, cut);
      && |r| <= |s| && r == s[..|r|]
      && (forall i :: |r| <= i < |s| ==> s[i] in cut)
      && (|r| == 0 || r[|r| - 1] !in cut)
  {
    if |s| > 0 && s[|s| - 1] in cut {
      TrimRightShape(s[..|s| - 1], cut);
    }
  }

  /** Trimming leaves a string that neither starts nor ends with a cut
      character. */
  lemma TrimShape(s: string, cut: set<char>)
    ensures |Trim(s, cut)| == 0 || Trim(s, cut)[0] !in cut
    ensures |Trim(s, cut)| == 0 || Trim(s, cut)[|Trim(s, cut)| - 1] !in cut
  {
    var l := TrimLeft(s, cut);
    TrimLeftShape(s, cut);
    var r := TrimRight(l, cut);
    TrimRightShape(l, cut);
    if |r| > 0 {
      assert r[0] == l[0];
    }
  }

  /** A string without cut characters at either end is its own trim. */
  lemma TrimNoop(s: string, cut: set<char>)
    requires |s| == 0 || (s[0] !in cut && s[|s| - 1] !in cut)
    ensures Trim(s, cut) == s
  {
  }

  // ---------------------------------------------------------------------
  // Substrings
  // ---------------------------------------------------------------------

  /** A string contains every piece it is built from. */
  lemma ContainsMiddle(a: string, b: string, c: string)
    ensures Contains(a + b + c, b)
  {
    var s := a + b + c;
    assert s[|a|..][..|b|] == b;
  }

  /** The pieces one after another (strings.Builder, or a template's
      output). */
  function Concat(xs: seq<string>): string
  {
    if |xs| == 0 then "" else xs[0] + Concat(xs[1..])
  }

  /** A concatenation around any one of its pieces. */
  lemma {:induction false} ConcatAround(xs: seq<string>, i: int)
    requires 0 <= i < |xs|
    ensures Concat(xs) == Concat(xs[..i]) + xs[i] + Concat(xs[i + 1..])
  {
    if i > 0 {
      ConcatAround(xs[1..], i - 1);
      assert xs[1..][..i - 1] == xs[1..i];
      assert xs[1..][i..] == xs[i + 1..];
      assert Concat(xs[..i]) == xs[0] + Concat(xs[1..i]) by {
        assert xs[..i][1..] == xs[1..i];
      }
    }
  }

  lemma {:induction false} ConcatAppend(xs: seq<string>, ys: seq<string>)
    ensures Concat(xs + ys) == Concat(xs) + Concat(ys)
  {
    if |xs| == 0 {
      assert xs + ys == ys;
    } else {
      ConcatAppend(xs[1..], ys);
      assert (xs + ys)[1..] == xs[1..] + ys;
    }
  }
}
