/** `algo gen <name> <type>` (cmd/gen.go): a stored problem, or every
    problem of a contest, rendered through the document template and
    written below the markdown directory. */
module Gen {
  import opened Wrappers
  import opened Text
  import opened Numbers
  import opened Files
  import opened Model
  import opened Store
  import Generator

  // ---------------------------------------------------------------------
  // Timestamps
  // ---------------------------------------------------------------------

  /** time.Time.Format with the layout "2006-01-02 15:04:05": the year
      padded to four digits, every other field to two. */
  function FormatTimestamp(d: DateTime): (r: string)
    ensures |r| >= 19
    ensures d.Valid() ==> |r| == 19 && ParseTimestamp(r) == Some(d)
  {
    PartsRoundTrip(d);
    DatePart(d) + " " + TimePart(d)
  }

  /** The "2006-01-02" half of the layout. */
  function DatePart(d: DateTime): (r: string)
    ensures |r| >= 10
  {
    FormatPadded(d.year, 4) + "-" + FormatPadded(d.month, 2) + "-" + FormatPadded(d.day, 2)
  }

  /** The "15:04:05" half of the layout. */
  function TimePart(d: DateTime): (r: string)
    ensures |r| >= 8
  {
    FormatPadded(d.hour, 2) + ":" + FormatPadded(d.minute, 2) + ":" + FormatPadded(d.second, 2)
  }

  /** The reading of that layout: nineteen characters, digits in the
      fields, the separators in place, and field values in range. */
  function ParseTimestamp(s: string): (r: Option<DateTime>)
    ensures r.Some? ==> r.value.Valid() && |s| == 19
  {
    if |s| != 19 || s[4] != '-' || s[7] != '-' || s[10] != ' ' || s[13] != ':' || s[16] != ':' then None
    else if !(AllDigits(s[..4]) && AllDigits(s[5..7]) && AllDigits(s[8..10])
              && AllDigits(s[11..13]) && AllDigits(s[14..16]) && AllDigits(s[17..])) then None
    else
      var d := DateTime(ParseDigits(s[..4]), ParseDigits(s[5..7]), ParseDigits(s[8..10]),
                        ParseDigits(s[11..13]), ParseDigits(s[14..16]), ParseDigits(s[17..]));
      if d.Valid() then Some(d) else None
  }

  /** Three fields of widths 4, 2, 2 or 2, 2, 2 with one-character
      separators sit at fixed positions. */
  lemma ThreeFields(a: string, x: string, b: string, y: string, c: string)
    requires |x| == 1 && |y| == 1
    ensures var s := a + x + b + y + c;
      && s[..|a|] == a && s[|a|] == x[0]
      && s[|a| + 1..|a| + 1 + |b|] == b && s[|a| + 1 + |b|] == y[0]
      && s[|a| + 2 + |b|..] == c
  {
    var s := a + x + b + y + c;
    assert s == a + (x + (b + (y + c)));
  }

  lemma DateFields(d: DateTime)
    requires d.Valid()
    ensures var s := DatePart(d);
      && |s| == 10 && s[4] == '-' && s[7] == '-'
      && s[..4] == FormatPadded(d.year, 4) && s[5..7] == FormatPadded(d.month, 2)
      && s[8..] == FormatPadded(d.day, 2)
  {
    assert Pow10(2) == 100 && Pow10(4) == 10000;
    PaddedRoundTrip(d.year, 4);
    PaddedRoundTrip(d.month, 2);
    PaddedRoundTrip(d.day, 2);
    ThreeFields(FormatPadded(d.year, 4), "-", FormatPadded(d.month, 2), "-", FormatPadded(d.day, 2));
  }

  lemma TimeFields(d: DateTime)
    requires d.Valid()
    ensures var s := TimePart(d);
      && |s| == 8 && s[2] == ':' && s[5] == ':'
      && s[..2] == FormatPadded(d.hour, 2) && s[3..5] == FormatPadded(d.minute, 2)
      && s[6..] == FormatPadded(d.second, 2)
  {
    assert Pow10(2) == 100;
    PaddedRoundTrip(d.hour, 2);
    PaddedRoundTrip(d.minute, 2);
    PaddedRoundTrip(d.second, 2);
    ThreeFields(FormatPadded(d.hour, 2), ":", FormatPadded(d.minute, 2), ":", FormatPadded(d.second, 2));
  }

  /** The six fields of a formatted time, at their fixed positions. */
  lemma TimestampFields(d: DateTime)
    requires d.Valid()
    ensures var s := DatePart(d) + " " + TimePart(d);
      && |s| == 19
      && s[..4] == FormatPadded(d.year, 4) && s[5..7] == FormatPadded(d.month, 2)
      && s[8..10] == FormatPadded(d.day, 2) && s[11..13] == FormatPadded(d.hour, 2)
      && s[14..16] == FormatPadded(d.minute, 2) && s[17..] == FormatPadded(d.second, 2)
      && s[4] == '-' && s[7] == '-' && s[10] == ' ' && s[13] == ':' && s[16] == ':'
  {
    DateFields(d);
    TimeFields(d);
    var a, b := DatePart(d), TimePart(d);
    var s := a + " " + b;
    assert s[..10] == a && s[11..] == b;
    assert s[..4] == a[..4] && s[5..7] == a[5..7] && s[8..10] == a[8..];
    assert s[11..13] == b[..2] && s[14..16] == b[3..5] && s[17..] == b[6..];
  }

  /** A valid time's two halves, joined by a space, are nineteen
      characters that read back as the same time. */
  lemma PartsRoundTrip(d: DateTime)
    ensures d.Valid() ==> |DatePart(d) + " " + TimePart(d)| == 19
    ensures d.Valid() ==> ParseTimestamp(DatePart(d) + " " + TimePart(d)) == Some(d)
  {
    if d.Valid() {
      TimestampFields(d);
      assert Pow10(2) == 100 && Pow10(4) == 10000;
      PaddedRoundTrip(d.year, 4);
      PaddedRoundTrip(d.month, 2);
      PaddedRoundTrip(d.day, 2);
      PaddedRoundTrip(d.hour, 2);
      PaddedRoundTrip(d.minute, 2);
      PaddedRoundTrip(d.second, 2);
    }
  }

  /** Every string that reads as a time is the printing of that time: the
      layout has exactly one spelling per time. */
  lemma TimestampUnique(s: string)
    requires ParseTimestamp(s).Some?
    ensures FormatTimestamp(ParseTimestamp(s).value) == s
  {
    var d := ParseTimestamp(s).value;
    DigitsPadded(s[..4]);
    DigitsPadded(s[5..7]);
    DigitsPadded(s[8..10]);
    DigitsPadded(s[11..13]);
    DigitsPadded(s[14..16]);
    DigitsPadded(s[17..]);
    TimestampFields(d);
    var t := FormatTimestamp(d);
    assert forall i :: 0 <= i < 4 ==> t[i] == t[..4][i] == s[..4][i] == s[i];
    assert forall i :: 5 <= i < 7 ==> t[i] == t[5..7][i - 5] == s[5..7][i - 5] == s[i];
    assert forall i :: 8 <= i < 10 ==> t[i] == t[8..10][i - 8] == s[8..10][i - 8] == s[i];
    assert forall i :: 11 <= i < 13 ==> t[i] == t[11..13][i - 11] == s[11..13][i - 11] == s[i];
    assert forall i :: 14 <= i < 16 ==> t[i] == t[14..16][i - 14] == s[14..16][i - 14] == s[i];
    assert forall i :: 17 <= i < 19 ==> t[i] == t[17..][i - 17] == s[17..][i - 17] == s[i];
  }

  // ---------------------------------------------------------------------
  // renderProblemMarkdown
  // ---------------------------------------------------------------------

  /** The fence language: the code path's extension without its dot. */
  function Language(codePath: string): (r: string)
    ensures '.' !in r && '/' !in r
    ensures Ext(codePath) == "" ==> r == ""
    ensures Ext(codePath) != "" ==> Ext(codePath) == "." + r
  {
    ExtShape(codePath);
    var e := Ext(codePath);
    assert e != "" ==> HasPrefix(e, ".");
    TrimPrefix(e, ".")
  }

  /** A path ending in a dot and a word names that word as its language. */
  lemma LanguageOfSuffix(stem: string, lang: string)
    requires '.' !in lang && '/' !in lang
    ensures Language(stem + "." + lang) == lang
  {
    var e := "." + lang;
    assert e[1..] == lang;
    ExtOfSuffix(stem, e);
    assert stem + "." + lang == stem + e;
  }

  /** The managed copy of a code file has the language of the original. */
  lemma CopyKeepsLanguage(codeDir: string, slug: string, src: string)
    requires Ext(src) != ""
    ensures Language(PathJoin(codeDir, CodeFileName(slug, src))) == Language(src)
  {
    CodeCopyKeepsExt(codeDir, slug, src);
  }

  /** The values the template reads: tag names in the problem's tag order,
      both timestamps formatted, the note as the approach, and the code
      file's contents under the path's language. */
  function Project(p: Problem, tags: seq<Tag>, data: string): (r: Generator.Problem)
    ensures r.title == p.title && r.slug == p.slug && r.difficulty == p.difficulty
    ensures r.description == p.description && r.solutionURL == p.solutionURL && r.score == p.score
    ensures r.solution == p.note
    ensures |r.tags| == |tags| && forall i :: 0 <= i < |tags| ==> r.tags[i] == tags[i].name
    ensures p.createdAt.Valid() ==> ParseTimestamp(r.createdAt) == Some(p.createdAt)
    ensures p.updatedAt.Valid() ==> ParseTimestamp(r.updatedAt) == Some(p.updatedAt)
    ensures r.code.Some? && r.code.value.data == data
    ensures r.code.value.language == Language(p.codePath)
  {
    Generator.Problem(
      p.title, p.difficulty, Names(tags), p.solutionURL, p.score,
      FormatTimestamp(p.createdAt), FormatTimestamp(p.updatedAt),
      p.slug, p.description, p.note,
      Some(Generator.Code(Language(p.codePath), data)))
  }

  /** renderProblemMarkdown: the code file is read first; a missing file
      fails the render, otherwise the template renders the projection. */
  function RenderProblemMarkdown(s: Store, p: Problem, fs: Fs): (r: Result<string, Error>)
    ensures r.Ok? <==> p.codePath in fs.files
    ensures r.Err? ==> r.error == CodeReadFailed(p.codePath)
  {
    match ReadFile(fs, p.codePath)
    case None => Err(CodeReadFailed(p.codePath))
    case Some(data) => Ok(Generator.Render(Project(p, TagsOf(s, p.id), data)))
  }

  /** A rendered problem opens with its title, lists its tag names by
      ascending tag id, as the preload loads them, shows the note as the approach, and holds the
      code file's contents in a fence tagged with the path's language. */
  lemma RenderedDocument(s: Store, p: Problem, fs: Fs)
    requires RenderProblemMarkdown(s, p, fs).Ok?
    ensures var doc := RenderProblemMarkdown(s, p, fs).value;
      && HasPrefix(doc, "\n# " + p.title + "\n")
      && Contains(doc, Generator.TagsLabel + Join(Names(TagsOf(s, p.id)), ", ") + " |\n")
      && Contains(doc, Generator.ApproachSection(p.note))
      && Contains(doc, "\n" + Generator.Fence + Language(p.codePath) + "\n" + fs.files[p.codePath] + "\n" + Generator.Fence + "\n")
  {
    var q := Project(p, TagsOf(s, p.id), fs.files[p.codePath]);
    Generator.TitleFirst(q);
    Generator.TagsShown(q);
    Generator.PieceShown(q, 8);
    Generator.CodeShown(q);
  }

  // ---------------------------------------------------------------------
  // Where documents go
  // ---------------------------------------------------------------------

  /** `<markdown dir>/<folder>/<name>.md`: the folder is the difficulty of
      a problem or the type of a contest. */
  function MarkdownPath(markdownDir: string, folder: string, name: string): (r: string)
    ensures HasPrefix(r, markdownDir + "/" + folder + "/")
    ensures HasSuffix(r, "/" + name + ".md")
  {
    var r := PathJoin(markdownDir + "/" + folder, name + ".md");
    assert r == (markdownDir + "/" + folder + "/") + (name + ".md");
    assert r == (markdownDir + "/" + folder) + ("/" + name + ".md");
    r
  }

  /** Different names in one folder get different files. */
  lemma MarkdownPathInjective(markdownDir: string, folder: string, a: string, b: string)
    requires MarkdownPath(markdownDir, folder, a) == MarkdownPath(markdownDir, folder, b)
    ensures a == b
  {
    var pa, pb := MarkdownPath(markdownDir, folder, a), MarkdownPath(markdownDir, folder, b);
    var k := |markdownDir + "/" + folder + "/"|;
    assert pa == (markdownDir + "/" + folder + "/") + a + ".md";
    assert pb == (markdownDir + "/" + folder + "/") + b + ".md";
    assert |a| == |b|;
    assert forall i :: 0 <= i < |a| ==> a[i] == pa[k + i] == pb[k + i] == b[i];
  }

  /** The single-problem branch of getMarkdown: an unknown slug is an
      error, then the render, then the write to
      `<markdown dir>/<difficulty>/<slug>.md`. */
  function GenProblem(markdownDir: string, s: Store, slug: string, fs: Fs): (r: Result<Fs, Error>)
    ensures FindBySlug(s.problems, slug).None? ==> r == Err(NotFound(slug))
    ensures r.Ok? <==>
      && FindBySlug(s.problems, slug).Some?
      && var p := s.problems[FindBySlug(s.problems, slug).value];
         p.codePath in fs.files && MarkdownPath(markdownDir, p.difficulty, p.slug) !in fs.locked
    ensures r.Ok? ==>
      var p := s.problems[FindBySlug(s.problems, slug).value];
      var path := MarkdownPath(markdownDir, p.difficulty, p.slug);
      && RenderProblemMarkdown(s, p, fs).Ok?
      && ReadFile(r.value, path) == Some(RenderProblemMarkdown(s, p, fs).value)
      && (forall f :: f != path ==> ReadFile(r.value, f) == ReadFile(fs, f))
  {
    match FindBySlug(s.problems, slug)
    case None => Err(NotFound(slug))
    case Some(i) =>
      var p := s.problems[i];
      match RenderProblemMarkdown(s, p, fs)
      case Err(e) => Err(e)
      case Ok(doc) =>
        var path := MarkdownPath(markdownDir, p.difficulty, p.slug);
        match WriteFile(fs, path, doc)
        case None => Err(MarkdownWriteFailed(path))
        case Some(fs') => Ok(fs')
  }

  // ---------------------------------------------------------------------
  // Contests
  // ---------------------------------------------------------------------

  /** A contest row with its problems (Preload("Problems.Tags")). */
  datatype Contest = Contest(title: string, kind: string, problems: seq<Problem>)

  /** The first contest with that title and type. */
  function FindContest(cs: seq<Contest>, title: string, kind: string): (r: Option<Contest>)
    ensures r.Some? ==> r.value in cs && r.value.title == title && r.value.kind == kind
    ensures r.None? ==> forall c :: c in cs ==> !(c.title == title && c.kind == kind)
  {
    if |cs| == 0 then None
    else if cs[0].title == title && cs[0].kind == kind then Some(cs[0])
    else FindContest(cs[1..], title, kind)
  }

  /** What follows every document of a contest, the last one included. */
  const Separator: string := "\n---\n"

  /** The builder loop over rendered documents: each one is appended
      followed by the separator, and the first failure aborts with its
      error. */
  function Collect(rs: seq<Result<string, Error>>): (r: Result<string, Error>)
    ensures r.Ok? <==> forall i :: 0 <= i < |rs| ==> rs[i].Ok?
    ensures r.Err? ==> exists i ::
      && 0 <= i < |rs|
      && rs[i] == Err(r.error)
      && (forall j :: 0 <= j < i ==> rs[j].Ok?)
  {
    if |rs| == 0 then Ok("")
    else match rs[0]
      case Err(e) => Err(e)
      case Ok(doc) =>
        assert forall i :: 1 <= i < |rs| ==> rs[i] == rs[1..][i - 1];
        match Collect(rs[1..])
        case Err(e) => Err(e)
        case Ok(rest) => Ok(doc + Separator + rest)
  }

  /** The render of every problem, in contest order. */
  function Renders(s: Store, ps: seq<Problem>, fs: Fs): (r: seq<Result<string, Error>>)
    ensures |r| == |ps|
    ensures forall i :: 0 <= i < |ps| ==> r[i] == RenderProblemMarkdown(s, ps[i], fs)
  {
    seq(|ps|, i requires 0 <= i < |ps| => RenderProblemMarkdown(s, ps[i], fs))
  }

  /** The contest branch's loop: every problem rendered in order, each
      document followed by the separator; the first problem whose code
      file is missing aborts the export. */
  function ExportContest(s: Store, ps: seq<Problem>, fs: Fs): (r: Result<string, Error>)
    ensures r.Ok? <==> forall i :: 0 <= i < |ps| ==> ps[i].codePath in fs.files
    ensures r.Err? ==> exists i ::
      && 0 <= i < |ps|
      && ps[i].codePath !in fs.files
      && r.error == CodeReadFailed(ps[i].codePath)
      && (forall j :: 0 <= j < i ==> ps[j].codePath in fs.files)
  {
    var rs := Renders(s, ps, fs);
    var r := Collect(rs);
    assert r.Err? ==> exists i :: 0 <= i < |ps| && rs[i] == Err(r.error) && (forall j :: 0 <= j < i ==> rs[j].Ok?);
    r
  }

  /** The values of results that all succeeded. */
  function Values(rs: seq<Result<string, Error>>): (r: seq<string>)
    requires forall i :: 0 <= i < |rs| ==> rs[i].Ok?
    ensures |r| == |rs| && forall i :: 0 <= i < |rs| ==> rs[i] == Ok(r[i])
  {
    seq(|rs|, i requires 0 <= i < |rs| => rs[i].value)
  }

  /** With no failure the builder holds the documents joined by the
      separator, with one more separator after the last. */
  lemma {:induction false} CollectIsJoin(rs: seq<Result<string, Error>>)
    requires |rs| >= 1
    requires forall i :: 0 <= i < |rs| ==> rs[i].Ok?
    ensures Collect(rs) == Ok(Join(Values(rs), Separator) + Separator)
  {
    var vs := Values(rs);
    if |rs| == 1 {
      assert vs[0] + Separator + "" == vs[0] + Separator;
    } else {
      CollectIsJoin(rs[1..]);
      var rest := Values(rs[1..]);
      assert vs == [vs[0]] + rest;
      JoinCons(vs[0], rest, Separator);
      var j := Join(rest, Separator);
      assert vs[0] + Separator + (j + Separator) == vs[0] + Separator + j + Separator;
    }
  }

  /** A contest export is the problems' documents joined by the separator,
      with one more separator after the last: the last document is
      followed by it too. */
  lemma ExportIsJoin(s: Store, ps: seq<Problem>, fs: Fs)
    requires |ps| >= 1
    requires forall i :: 0 <= i < |ps| ==> ps[i].codePath in fs.files
    ensures ExportContest(s, ps, fs).Ok?
    ensures var docs := Values(Renders(s, ps, fs));
      && (forall i :: 0 <= i < |ps| ==> RenderProblemMarkdown(s, ps[i], fs) == Ok(docs[i]))
      && ExportContest(s, ps, fs).value == Join(docs, Separator) + Separator
  {
    CollectIsJoin(Renders(s, ps, fs));
  }

  /** Collecting two runs of results one after the other gives the two
      collections one after the other. */
  lemma {:induction false} CollectAppend(a: seq<Result<string, Error>>, b: seq<Result<string, Error>>)
    requires Collect(a + b).Ok?
    ensures Collect(a).Ok? && Collect(b).Ok?
    ensures Collect(a + b).value == Collect(a).value + Collect(b).value
  {
    assert forall i :: 0 <= i < |a| ==> a[i] == (a + b)[i];
    assert forall i :: 0 <= i < |b| ==> b[i] == (a + b)[|a| + i];
    if |a| == 0 {
      assert a + b == b;
    } else {
      assert (a + b)[1..] == a[1..] + b;
      CollectAppend(a[1..], b);
    }
  }

  lemma RendersAppend(s: Store, a: seq<Problem>, b: seq<Problem>, fs: Fs)
    ensures Renders(s, a + b, fs) == Renders(s, a, fs) + Renders(s, b, fs)
  {
    var l, r := Renders(s, a + b, fs), Renders(s, a, fs) + Renders(s, b, fs);
    forall i | 0 <= i < |l| ensures l[i] == r[i] {
      if i < |a| { assert (a + b)[i] == a[i]; } else { assert (a + b)[i] == b[i - |a|]; }
    }
  }

  /** Exporting two lists of problems one after the other gives the two
      exports one after the other. */
  lemma ExportAppend(s: Store, a: seq<Problem>, b: seq<Problem>, fs: Fs)
    requires ExportContest(s, a + b, fs).Ok?
    ensures ExportContest(s, a, fs).Ok? && ExportContest(s, b, fs).Ok?
    ensures ExportContest(s, a + b, fs).value == ExportContest(s, a, fs).value + ExportContest(s, b, fs).value
  {
    RendersAppend(s, a, b, fs);
    CollectAppend(Renders(s, a, fs), Renders(s, b, fs));
  }

  /** The contest branch of getMarkdown: an unknown (title, type) is an
      error, then the export, then the write to
      `<markdown dir>/<type>/<title>.md`. */
  function GenContest(markdownDir: string, s: Store, cs: seq<Contest>, title: string, kind: string, fs: Fs): (r: Result<Fs, Error>)
    ensures FindContest(cs, title, kind).None? ==> r == Err(ContestNotFound(title, kind))
    ensures r.Ok? <==>
      && FindContest(cs, title, kind).Some?
      && (forall p :: p in FindContest(cs, title, kind).value.problems ==> p.codePath in fs.files)
      && MarkdownPath(markdownDir, kind, title) !in fs.locked
    ensures r.Ok? ==>
      var c := FindContest(cs, title, kind).value;
      var path := MarkdownPath(markdownDir, kind, title);
      && ExportContest(s, c.problems, fs).Ok?
      && ReadFile(r.value, path) == Some(ExportContest(s, c.problems, fs).value)
      && (forall f :: f != path ==> ReadFile(r.value, f) == ReadFile(fs, f))
  {
    match FindContest(cs, title, kind)
    case None => Err(ContestNotFound(title, kind))
    case Some(c) =>
      match ExportContest(s, c.problems, fs)
      case Err(e) => Err(e)
      case Ok(doc) =>
        var path := MarkdownPath(markdownDir, c.kind, c.title);
        match WriteFile(fs, path, doc)
        case None => Err(MarkdownWriteFailed(path))
        case Some(fs') => Ok(fs')
  }

  /** getMarkdown: the type "pro" names a problem by slug; any other type
      names a contest by title. */
  function Generate(markdownDir: string, s: Store, cs: seq<Contest>, name: string, kind: string, fs: Fs): (r: Result<Fs, Error>)
    ensures kind == "pro" ==> r == GenProblem(markdownDir, s, name, fs)
    ensures kind != "pro" ==> r == GenContest(markdownDir, s, cs, name, kind, fs)
  {
    if kind == "pro" then GenProblem(markdownDir, s, name, fs)
    else GenContest(markdownDir, s, cs, name, kind, fs)
  }
}
