/** The records of the catalogue (internal/model/problem.go): difficulty
    validation, the Problem and Tag rows, and the managed copy of a
    problem's code file. Slug derivation lives in module Slug. */
module Model {
  import opened Wrappers
  import opened Text
  import opened Numbers
  import opened Files

  /** The three difficulty names, lowercase. */
  const Levels: set<string> := {"easy", "medium", "hard"}

  /** Difficulty.Valid: the value is lowercased; if that is a level name the
      method answers true and rewrites the value to it, otherwise it answers
      false and the value stays as it was. The pair is (answer, value after
      the call). */
  function Valid(lower: char -> char, d: string): (r: (bool, string))
    ensures r.0 ==> r.1 in Levels && r.1 == LowerAll(lower, d)
    ensures !r.0 ==> r.1 == d && LowerAll(lower, d) !in Levels
  {
    var l := LowerAll(lower, d);
    if l in Levels then (true, l) else (false, d)
  }

  /** Go's uint8, the type of Problem.Score. */
  type Uint8 = x: int | 0 <= x < 256

  /** A wall-clock time at second precision. */
  datatype DateTime = DateTime(year: nat, month: nat, day: nat, hour: nat, minute: nat, second: nat)
  {
    predicate Valid()
    {
      year <= 9999 && 1 <= month <= 12 && 1 <= day <= 31 && hour < 24 && minute < 60 && second < 60
    }

    /** The instant as one number, ordered like the calendar for valid
        times. */
    function Instant(): int
    {
      ((((year * 100 + month) * 100 + day) * 100 + hour) * 100 + minute) * 100 + second
    }
  }

  /** A row of the tags table. */
  datatype Tag = Tag(id: int, name: string)

  /** A row of the problems table. The tag associations live in the
      problem_tags join table (Store.links). */
  datatype Problem = Problem(
    id: int,
    title: string,
    slug: string,
    difficulty: string,
    solutionURL: string,
    note: string,
    codePath: string,
    score: Option<Uint8>,
    createdAt: DateTime,
    updatedAt: DateTime,
    description: string)

  /** Why an operation was refused or rolled back. */
  datatype Error =
    | InvalidDifficulty(value: string)
    | NotFound(slug: string)
    | TagLookupFailed(name: string)
    | CodeReadFailed(path: string)
    | CodeWriteFailed(path: string)
    | DuplicateSlug(slug: string)
    | InvalidScore(text: string)
    | CodeRemoveFailed(path: string)
    | InvalidPaging
    | MarkdownWriteFailed(path: string)
    | ContestNotFound(title: string, kind: string)
    | LoadFailed(id: int)

  /** The file name of a problem's managed code copy: slug, "_code", and the
      original file's extension. */
  function CodeFileName(slug: string, src: string): string
  {
    slug + "_code" + Ext(src)
  }

  /** The copy's name starts with the slug and "_code", and keeps the
      original's extension whenever it has one. */
  lemma CodeFileNameParts(slug: string, src: string)
    ensures HasPrefix(CodeFileName(slug, src), slug + "_code")
    ensures Ext(src) != "" ==> Ext(CodeFileName(slug, src)) == Ext(src)
  {
    var e := Ext(src);
    assert (slug + "_code" + e)[..|slug + "_code"|] == slug + "_code";
    if e != "" {
      ExtShape(src);
      if |e| == 1 { assert e == "."; }
      ExtOfSuffix(slug + "_code", e);
    }
  }

  /** Problem.SetCodePath: reads the file at `src`, writes a copy named
      after the slug into `codeDir`, and answers the copy's path. Both a
      failed read and a failed write abort (the program panics). */
  function SetCodePath(fs: Fs, codeDir: string, slug: string, src: string): (r: Result<(string, Fs), Error>)
    ensures r.Ok? <==> src in fs.files && PathJoin(codeDir, CodeFileName(slug, src)) !in fs.locked
    ensures r.Ok? ==> r.value.0 == PathJoin(codeDir, CodeFileName(slug, src))
    ensures r.Ok? ==> ReadFile(r.value.1, r.value.0) == ReadFile(fs, src)
    ensures r.Ok? ==> forall q :: q != r.value.0 ==> ReadFile(r.value.1, q) == ReadFile(fs, q)
    ensures r.Ok? ==> r.value.1.locked == fs.locked
    ensures r.Err? ==> r.error == CodeReadFailed(src) || r.error == CodeWriteFailed(PathJoin(codeDir, CodeFileName(slug, src)))
  {
    match ReadFile(fs, src)
    case None => Err(CodeReadFailed(src))
    case Some(data) =>
      var dst := PathJoin(codeDir, CodeFileName(slug, src));
      match WriteFile(fs, dst, data)
      case None => Err(CodeWriteFailed(dst))
      case Some(fs') => Ok((dst, fs'))
  }

  // ---------------------------------------------------------------------
  // Properties
  // ---------------------------------------------------------------------

  /** Validating an already validated value changes nothing, provided the
      case map leaves the three level names alone. */
  lemma ValidIdempotent(lower: char -> char, d: string)
    requires forall l :: l in Levels ==> LowerAll(lower, l) == l
    ensures Valid(lower, Valid(lower, d).1) == Valid(lower, d)
  {
  }

  function AsciiUpper(c: char): char
  {
    if 'a' <= c <= 'z' then (c as int - 32) as char else c
  }

  /** ASCII case-insensitive equality of `a` with the lowercase word `b`. */
  predicate EqualFold(a: string, b: string)
  {
    |a| == |b| && forall i :: 0 <= i < |a| ==> a[i] == b[i] || a[i] == AsciiUpper(b[i])
  }

  predicate LowercaseWord(b: string)
  {
    forall i :: 0 <= i < |b| ==> 'a' <= b[i] <= 'z'
  }

  lemma AsciiLowerIsFold(a: string, b: string)
    requires LowercaseWord(b)
    ensures LowerAll(AsciiLower, a) == b <==> EqualFold(a, b)
  {
    if EqualFold(a, b) {
      assert forall i :: 0 <= i < |a| ==> LowerAll(AsciiLower, a)[i] == b[i];
    }
    if LowerAll(AsciiLower, a) == b {
      forall i | 0 <= i < |a|
        ensures a[i] == b[i] || a[i] == AsciiUpper(b[i])
      {
        assert AsciiLower(a[i]) == b[i];
      }
    }
  }

  /** With ASCII case folding, a difficulty is valid exactly when it spells
      easy, medium or hard in any mix of letter cases, and the stored value
      is then the lowercase name. */
  lemma ValidIsCaseInsensitive(d: string)
    ensures Valid(AsciiLower, d).0 <==> EqualFold(d, "easy") || EqualFold(d, "medium") || EqualFold(d, "hard")
    ensures EqualFold(d, "easy") ==> Valid(AsciiLower, d) == (true, "easy")
    ensures EqualFold(d, "medium") ==> Valid(AsciiLower, d) == (true, "medium")
    ensures EqualFold(d, "hard") ==> Valid(AsciiLower, d) == (true, "hard")
  {
    AsciiLowerIsFold(d, "easy");
    AsciiLowerIsFold(d, "medium");
    AsciiLowerIsFold(d, "hard");
  }

  /** The managed copy keeps the original file's extension, so its language
      is the original's. */
  lemma CodeCopyKeepsExt(codeDir: string, slug: string, src: string)
    requires Ext(src) != ""
    ensures Ext(PathJoin(codeDir, CodeFileName(slug, src))) == Ext(src)
  {
    assert PathJoin(codeDir, CodeFileName(slug, src)) == (codeDir + "/" + slug + "_code") + Ext(src);
    ExtShape(src);
    var e := Ext(src);
    if |e| == 1 {
      assert e == ".";
    }
    ExtOfSuffix(codeDir + "/" + slug + "_code", e);
  }
}
