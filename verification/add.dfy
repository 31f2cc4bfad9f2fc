/** `algo add` (cmd/add.go): tag normalisation and lookup-or-create
    (CheckTags), the lenient score parse, and the whole add transaction as a
    transformer of the store and the filesystem. */
module Add {
  import opened Wrappers
  import opened Text
  import opened Numbers
  import opened Files
  import opened Model
  import opened Store
  import opened Common
  import Slug

  // ---------------------------------------------------------------------
  // Tag names
  // ---------------------------------------------------------------------

  /** The names a comma-separated tag list stands for: each piece is trimmed
      of white space, blank pieces are skipped, the rest are lowercased. */
  function NormalizeTags(lower: char -> char, raw: string): (r: seq<string>)
    ensures |r| <= Count(raw, ',') + 1
    ensures |r| == NonBlank(Split(raw, ','))
    ensures forall i :: 0 <= i < |r| ==> r[i] != ""
  {
    NormalizePieces(lower, Split(raw, ','))
  }

  /** The number of pieces with something other than white space in them. */
  function NonBlank(pieces: seq<string>): nat
  {
    if |pieces| == 0 then 0 else (if TrimSpace(pieces[0]) == "" then 0 else 1) + NonBlank(pieces[1..])
  }

  function NormalizePieces(lower: char -> char, pieces: seq<string>): (r: seq<string>)
    ensures |r| <= |pieces|
    ensures |r| == NonBlank(pieces)
    ensures forall i :: 0 <= i < |r| ==> r[i] != ""
  {
    if |pieces| == 0 then []
    else
      var t := TrimSpace(pieces[0]);
      (if t == "" then [] else [LowerAll(lower, t)]) + NormalizePieces(lower, pieces[1..])
  }

  /** Every piece with something in it gives its trimmed, lowercased text,
      and every name is such a text. */
  lemma {:induction false} NormalizedPieces(lower: char -> char, pieces: seq<string>)
    ensures var r := NormalizePieces(lower, pieces);
      && (forall k :: 0 <= k < |pieces| && TrimSpace(pieces[k]) != "" ==> LowerAll(lower, TrimSpace(pieces[k])) in r)
      && (forall i :: 0 <= i < |r| ==> exists k :: 0 <= k < |pieces| && r[i] == LowerAll(lower, TrimSpace(pieces[k])))
  {
    if |pieces| > 0 {
      NormalizedPieces(lower, pieces[1..]);
      var r := NormalizePieces(lower, pieces);
      var rest := NormalizePieces(lower, pieces[1..]);
      var head := if TrimSpace(pieces[0]) == "" then [] else [LowerAll(lower, TrimSpace(pieces[0]))];
      assert r == head + rest;
      forall k | 0 <= k < |pieces| && TrimSpace(pieces[k]) != "" ensures LowerAll(lower, TrimSpace(pieces[k])) in r {
        if k > 0 { assert pieces[k] == pieces[1..][k - 1]; }
      }
      forall i | 0 <= i < |r| ensures exists k :: 0 <= k < |pieces| && r[i] == LowerAll(lower, TrimSpace(pieces[k])) {
        if i >= |head| {
          var k :| 0 <= k < |pieces[1..]| && rest[i - |head|] == LowerAll(lower, TrimSpace(pieces[1..][k]));
          assert pieces[1..][k] == pieces[k + 1];
        } else {
          assert r[i] == LowerAll(lower, TrimSpace(pieces[0]));
        }
      }
    }
  }

  /** The names of a tag list, piece by piece: each piece between commas
      with something other than white space in it gives its trimmed,
      lowercased text, and there is no other name. */
  lemma NormalizeTagsNames(lower: char -> char, raw: string)
    ensures var pieces := Split(raw, ',');
      var r := NormalizeTags(lower, raw);
      && (forall k :: 0 <= k < |pieces| && TrimSpace(pieces[k]) != "" ==> LowerAll(lower, TrimSpace(pieces[k])) in r)
      && (forall i :: 0 <= i < |r| ==> exists k :: 0 <= k < |pieces| && r[i] == LowerAll(lower, TrimSpace(pieces[k])))
  {
    var pieces := Split(raw, ',');
    assert NormalizeTags(lower, raw) == NormalizePieces(lower, pieces);
    NormalizedPieces(lower, pieces);
  }

  /** A case map that is idempotent, keeps a rune that is not white space
      out of white space, and sends no rune but ',' to ','. unicode.ToLower
      is one; AsciiLower is shown to be one. */
  predicate TameCaseMap(lower: char -> char)
  {
    && (forall c :: lower(lower(c)) == lower(c))
    && (forall c :: c !in Spaces ==> lower(c) !in Spaces)
    && (forall c :: c != ',' ==> lower(c) != ',')
  }

  lemma AsciiLowerTame()
    ensures TameCaseMap(AsciiLower)
  {
  }

  /** A name as NormalizeTags produces it and a comma list can carry. */
  predicate TagName(lower: char -> char, n: string)
  {
    n != "" && ',' !in n && TrimSpace(n) == n && LowerAll(lower, n) == n
  }

  lemma {:induction false} NormalizePiecesOfNames(lower: char -> char, names: seq<string>)
    requires forall i :: 0 <= i < |names| ==> TagName(lower, names[i])
    ensures NormalizePieces(lower, names) == names
  {
    if |names| > 0 {
      NormalizePiecesOfNames(lower, names[1..]);
      assert names == [names[0]] + names[1..];
    }
  }

  /** Joining normalised names with commas and normalising again gives the
      same names back. */
  lemma NormalizeJoinedNames(lower: char -> char, names: seq<string>)
    requires forall i :: 0 <= i < |names| ==> TagName(lower, names[i])
    ensures NormalizeTags(lower, Join(names, ",")) == names
  {
    if |names| == 0 {
      assert Split("", ',') == [""];
      assert TrimSpace("") == "";
    } else {
      JoinSplit(names, ',');
      NormalizePiecesOfNames(lower, names);
    }
  }

  /** Under a tame case map, a piece between commas with something in it
      normalises to a name in normal form. */
  lemma PieceIsTagName(lower: char -> char, piece: string)
    requires TameCaseMap(lower)
    requires ',' !in piece && TrimSpace(piece) != ""
    ensures TagName(lower, LowerAll(lower, TrimSpace(piece)))
  {
    var l := TrimLeft(piece, Spaces);
    TrimLeftShape(piece, Spaces);
    TrimRightShape(l, Spaces);
    TrimShape(piece, Spaces);
    var t := TrimSpace(piece);
    var n := LowerAll(lower, t);
    assert ',' !in t by {
      forall i | 0 <= i < |t| ensures t[i] != ',' {
        assert t[i] == l[i] == piece[|piece| - |l| + i];
      }
    }
    assert ',' !in n by {
      forall i | 0 <= i < |n| ensures n[i] != ',' {
        assert t[i] != ',';
      }
    }
    assert n[0] == lower(t[0]) && n[|n| - 1] == lower(t[|t| - 1]);
    TrimNoop(n, Spaces);
    assert LowerAll(lower, n) == n;
  }

  /** Under a tame case map every name NormalizeTags gives is in normal
      form, so normalising the names joined with commas gives them back. */
  lemma NormalizeTagsIdempotent(lower: char -> char, raw: string)
    requires TameCaseMap(lower)
    ensures forall i :: 0 <= i < |NormalizeTags(lower, raw)| ==> TagName(lower, NormalizeTags(lower, raw)[i])
    ensures NormalizeTags(lower, Join(NormalizeTags(lower, raw), ",")) == NormalizeTags(lower, raw)
  {
    var pieces := Split(raw, ',');
    var r := NormalizeTags(lower, raw);
    NormalizeTagsNames(lower, raw);
    forall i | 0 <= i < |r| ensures TagName(lower, r[i]) {
      var k :| 0 <= k < |pieces| && r[i] == LowerAll(lower, TrimSpace(pieces[k]));
      PieceIsTagName(lower, pieces[k]);
    }
    NormalizeJoinedNames(lower, r);
  }

  // ---------------------------------------------------------------------
  // CheckTags
  // ---------------------------------------------------------------------

  /** CheckTags after normalisation: each name is looked up in the tags
      table; a missing one is inserted with id max(id) + 1, so a name that
      recurs in the list finds the row its first occurrence created. A
      lookup that fails for another reason than "not found" (the names in
      `broken`) aborts. The answer is the grown table and the tag of each
      name, in order. */
  function ResolveTags(ts: seq<Tag>, names: seq<string>, broken: set<string>): (r: Result<(seq<Tag>, seq<Tag>), Error>)
    ensures r.Err? <==> exists i :: 0 <= i < |names| && names[i] in broken
    ensures r.Err? ==> r.error.TagLookupFailed? && r.error.name in broken
    ensures r.Ok? ==> |ts| <= |r.value.0| && r.value.0[..|ts|] == ts
    ensures r.Ok? ==> |r.value.1| == |names|
    ensures r.Ok? ==> forall i :: 0 <= i < |names| ==> r.value.1[i].name == names[i] && r.value.1[i] in r.value.0
    decreases |names|
  {
    if |names| == 0 then Ok((ts, []))
    else
      var n := names[0];
      if n in broken then Err(TagLookupFailed(n))
      else
        var (ts1, t) := LookupOrCreate(ts, n);
        match ResolveTags(ts1, names[1..], broken)
        case Err(e) => Err(e)
        case Ok((ts', got)) =>
          assert ts'[..|ts|] == ts by { assert ts'[..|ts1|][..|ts|] == ts1[..|ts|]; }
          Ok((ts', [t] + got))
  }

  /** One round of the CheckTags loop for a name that can be looked up. */
  function LookupOrCreate(ts: seq<Tag>, n: string): (r: (seq<Tag>, Tag))
    ensures r.1.name == n && r.1 in r.0
    ensures FindTag(ts, n).Some? ==> r == (ts, FindTag(ts, n).value)
    ensures FindTag(ts, n).None? ==> r.0 == ts + [r.1] && forall i :: 0 <= i < |ts| ==> ts[i].id < r.1.id
    ensures FindTag(ts, n).None? && |ts| == 0 ==> r.1.id == 1
    ensures FindTag(ts, n).None? && |ts| > 0 ==> r.1.id - 1 in TagIdSet(ts)
  {
    match FindTag(ts, n)
    case Some(t) => (ts, t)
    case None =>
      var t := Tag(NextId(TagIds(ts)), n);
      (ts + [t], t)
  }

  lemma LookupOrCreateKeepsTable(ts: seq<Tag>, n: string)
    requires TagTableOk(ts)
    ensures TagTableOk(LookupOrCreate(ts, n).0)
  {
  }

  lemma {:induction false} FindTagExtend(ts: seq<Tag>, more: seq<Tag>, n: string)
    requires FindTag(ts, n).Some?
    ensures FindTag(ts + more, n) == FindTag(ts, n)
  {
    if ts[0].name != n {
      assert (ts + more)[1..] == ts[1..] + more;
      FindTagExtend(ts[1..], more, n);
    }
  }

  /** CheckTags keeps the tags table consistent: ids and names stay
      unique. */
  lemma {:induction false} ResolveTagsKeepsTable(ts: seq<Tag>, names: seq<string>, broken: set<string>)
    requires TagTableOk(ts)
    requires ResolveTags(ts, names, broken).Ok?
    ensures TagTableOk(ResolveTags(ts, names, broken).value.0)
    decreases |names|
  {
    if |names| > 0 {
      LookupOrCreateKeepsTable(ts, names[0]);
      ResolveTagsKeepsTable(LookupOrCreate(ts, names[0]).0, names[1..], broken);
    }
  }

  /** CheckTags creates a row only for a listed name that had none. */
  lemma {:induction false} ResolveTagsCreatesOnlyMissing(ts: seq<Tag>, names: seq<string>, broken: set<string>)
    requires ResolveTags(ts, names, broken).Ok?
    ensures var ts' := ResolveTags(ts, names, broken).value.0;
      forall i :: |ts| <= i < |ts'| ==> ts'[i].name in names && FindTag(ts, ts'[i].name).None?
    decreases |names|
  {
    if |names| > 0 {
      var (ts1, t) := LookupOrCreate(ts, names[0]);
      ResolveTagsCreatesOnlyMissing(ts1, names[1..], broken);
      var ts' := ResolveTags(ts1, names[1..], broken).value.0;
      assert ts' == ResolveTags(ts, names, broken).value.0;
      forall i | |ts| <= i < |ts'|
        ensures ts'[i].name in names && FindTag(ts, ts'[i].name).None?
      {
        var x := ts'[i].name;
        if i >= |ts1| {
          assert x in names[1..];
          assert forall j :: 0 <= j < |ts| ==> ts[j] == ts1[j];
        } else {
          assert ts'[i] == ts1[i] == t;
        }
      }
    }
  }

  /** A row CheckTags creates has an id above every id before it. */
  lemma {:induction false} ResolveTagsFreshIds(ts: seq<Tag>, names: seq<string>, broken: set<string>)
    requires ResolveTags(ts, names, broken).Ok?
    ensures var ts' := ResolveTags(ts, names, broken).value.0;
      forall i, j :: 0 <= j < |ts| <= i < |ts'| ==> ts[j].id < ts'[i].id
    decreases |names|
  {
    if |names| > 0 {
      var (ts1, t) := LookupOrCreate(ts, names[0]);
      ResolveTagsFreshIds(ts1, names[1..], broken);
      var ts' := ResolveTags(ts1, names[1..], broken).value.0;
      assert ts' == ResolveTags(ts, names, broken).value.0;
      forall i, j | 0 <= j < |ts| <= i < |ts'|
        ensures ts[j].id < ts'[i].id
      {
        assert ts[j] == ts1[j];
        if i < |ts1| {
          assert ts'[i] == ts1[i];
        }
      }
    }
  }

  /** A name that already had a row resolves to that row. */
  lemma {:induction false} ResolveTagsReusesRows(ts: seq<Tag>, names: seq<string>, broken: set<string>)
    requires ResolveTags(ts, names, broken).Ok?
    ensures var got := ResolveTags(ts, names, broken).value.1;
      forall i :: 0 <= i < |names| && FindTag(ts, names[i]).Some? ==> got[i] == FindTag(ts, names[i]).value
    decreases |names|
  {
    if |names| > 0 {
      var (ts1, t) := LookupOrCreate(ts, names[0]);
      ResolveTagsReusesRows(ts1, names[1..], broken);
      var got := ResolveTags(ts, names, broken).value.1;
      assert got == [t] + ResolveTags(ts1, names[1..], broken).value.1;
      forall i | 0 <= i < |names| && FindTag(ts, names[i]).Some?
        ensures got[i] == FindTag(ts, names[i]).value
      {
        if i > 0 {
          FindTagExtend(ts, ts1[|ts|..], names[i]);
          assert ts + ts1[|ts|..] == ts1;
          assert names[i] == names[1..][i - 1];
        }
      }
    }
  }

  /** With a consistent table, equal names resolve to the same row: the
      list "array, Array" yields one tag twice, never two rows. */
  lemma ResolveTagsConsistent(ts: seq<Tag>, names: seq<string>, broken: set<string>)
    requires TagTableOk(ts)
    requires ResolveTags(ts, names, broken).Ok?
    ensures var got := ResolveTags(ts, names, broken).value.1;
      forall i, j :: 0 <= i < |names| && 0 <= j < |names| && names[i] == names[j] ==> got[i] == got[j]
  {
    ResolveTagsKeepsTable(ts, names, broken);
    var (ts', got) := ResolveTags(ts, names, broken).value;
    forall i, j | 0 <= i < |names| && 0 <= j < |names| && names[i] == names[j]
      ensures got[i] == got[j]
    {
      var a :| 0 <= a < |ts'| && ts'[a] == got[i];
      var b :| 0 <= b < |ts'| && ts'[b] == got[j];
      assert a == b;
    }
  }

  // ---------------------------------------------------------------------
  // Score
  // ---------------------------------------------------------------------

  /** The score of a new problem: a decimal number from 0 to 255 is stored,
      anything else (including no score) leaves it unset. */
  function AddScore(text: string): (r: Option<Uint8>)
    ensures r.Some? <==> Atoi(text).Ok? && 0 <= Atoi(text).value <= 255
    ensures r.Some? ==> r.value == Atoi(text).value
  {
    match Atoi(text)
    case Ok(v) => if 0 <= v <= 255 then Some(v) else None
    case Err(_) => None
  }

  /** A score printed with `%d` is read back. */
  lemma AddScoreRoundTrip(n: Uint8)
    ensures AddScore(FormatNat(n)) == Some(n)
  {
    AtoiFormat(n);
  }

  // ---------------------------------------------------------------------
  // The add transaction
  // ---------------------------------------------------------------------

  /** addProblem: the difficulty is validated before anything else; then
      in one transaction the tags are resolved, the problem gets id
      max(id) + 1, its slug, and a copy of its code file, and is inserted
      with its tag links. `now` is the creation time. */
  function AddProblem(rt: Runes, codeDir: string, broken: set<string>, now: DateTime,
                      p: Params, s: Store, fs: Fs): (r: Effect)
    ensures r.db.Ok? ==> s.problems <= r.db.value.problems && |r.db.value.problems| == |s.problems| + 1
    ensures r.db.Ok? ==> s.tags <= r.db.value.tags
    ensures r.db.Err? && !Valid(rt.lower, p.difficulty).0 ==> r.fs == fs
  {
    var (ok, diff) := Valid(rt.lower, p.difficulty);
    if !ok then Effect(Err(InvalidDifficulty(p.difficulty)), fs)
    else match ResolveTags(s.tags, NormalizeTags(rt.lower, p.tags), broken)
      case Err(e) => Effect(Err(e), fs)
      case Ok((tags', got)) =>
        var id := NextId(ProblemIds(s.problems));
        var slug := Slug.SetSlug(rt, id, p.title);
        match SetCodePath(fs, codeDir, slug, p.codePath)
        case Err(e) => Effect(Err(e), fs)
        case Ok((path, fs')) =>
          if FindBySlug(s.problems, slug).Some? then Effect(Err(DuplicateSlug(slug)), fs')
          else
            var prob := Problem(id, p.title, slug, diff, p.solution, p.note, path, AddScore(p.score), now, now, "");
            Effect(Ok(InsertProblem(s, tags', got, prob)), fs')
  }

  /** tx.Create(&problem): the row goes in, the tags table is the one tag
      resolution left, and a join row is added per resolved tag. */
  function InsertProblem(s: Store, tags': seq<Tag>, got: seq<Tag>, q: Problem): Store
  {
    Store(s.problems + [q], tags', LinkAll(s.links, q.id, TagIds(got)))
  }

  /** Inserting a consistent row with a fresh id, together with a grown
      consistent tags table that holds every resolved tag, keeps the store
      consistent. */
  lemma InsertKeepsStoreOk(rt: Runes, s: Store, tags': seq<Tag>, got: seq<Tag>, q: Problem)
    requires StoreOk(rt, s)
    requires |s.tags| <= |tags'| && tags'[..|s.tags|] == s.tags && TagTableOk(tags')
    requires forall j :: 0 <= j < |got| ==> got[j] in tags'
    requires ProblemOk(rt, q) && forall i :: 0 <= i < |s.problems| ==> s.problems[i].id < q.id
    ensures StoreOk(rt, InsertProblem(s, tags', got, q))
  {
    var s' := InsertProblem(s, tags', got, q);
    InsertKeepsIds(s.problems, q);
    RowsOkAppend(rt, s.problems, q);
    InsertKeepsLinks(s, tags', got, q);
  }

  lemma InsertKeepsIds(ps: seq<Problem>, q: Problem)
    requires UniqueIds(ps)
    requires forall i :: 0 <= i < |ps| ==> ps[i].id < q.id
    ensures UniqueIds(ps + [q])
  {
  }

  lemma InsertKeepsLinks(s: Store, tags': seq<Tag>, got: seq<Tag>, q: Problem)
    requires LinksOk(s)
    requires |s.tags| <= |tags'| && tags'[..|s.tags|] == s.tags
    requires forall j :: 0 <= j < |got| ==> got[j] in tags'
    ensures LinksOk(InsertProblem(s, tags', got, q))
  {
    var s' := InsertProblem(s, tags', got, q);
    LinkAllDistinct(s.links, q.id, TagIds(got));
    ProblemIdSetAppend(s.problems, q);
    TagIdSetGrows(s.tags, tags');
    forall k | 0 <= k < |s'.links|
      ensures s'.links[k].problemId in ProblemIdSet(s'.problems) && s'.links[k].tagId in TagIdSet(s'.tags)
    {
      var l := s'.links[k];
      if l !in s.links {
        var j :| 0 <= j < |got| && got[j].id == l.tagId;
        var m :| 0 <= m < |tags'| && tags'[m] == got[j];
      }
    }
  }

  /** Linking problem `pid` to the resolved tags, on a join table that has
      no row for it yet, links it to exactly the tags named by `names`. */
  lemma LinkedExactly(base: seq<Link>, tags': seq<Tag>, got: seq<Tag>, names: seq<string>, pid: int)
    requires forall l :: l in base ==> l.problemId != pid
    requires TagTableOk(tags') && |got| == |names|
    requires forall j :: 0 <= j < |got| ==> got[j] in tags' && got[j].name == names[j]
    ensures var links' := LinkAll(base, pid, TagIds(got));
      forall n :: n in names <==> exists t :: t in tags' && t.name == n && Link(pid, t.id) in links'
  {
    var links' := LinkAll(base, pid, TagIds(got));
    forall n | n in names
      ensures exists t :: t in tags' && t.name == n && Link(pid, t.id) in links'
    {
      var i :| 0 <= i < |names| && names[i] == n;
      assert TagIds(got)[i] == got[i].id;
      assert Link(pid, got[i].id) in links';
    }
    forall t | t in tags' && Link(pid, t.id) in links'
      ensures t.name in names
    {
      var j :| 0 <= j < |got| && TagIds(got)[j] == t.id;
      var a :| 0 <= a < |tags'| && tags'[a] == t;
      var b :| 0 <= b < |tags'| && tags'[b] == got[j];
      assert a == b;
    }
  }

  /** After inserting a row whose id no join row mentions yet, the row is
      linked to exactly the resolved tags, named by `names`. */
  lemma InsertedTags(s: Store, tags': seq<Tag>, got: seq<Tag>, names: seq<string>, q: Problem)
    requires LinksOk(s) && q.id !in ProblemIdSet(s.problems)
    requires TagTableOk(tags') && |got| == |names|
    requires forall j :: 0 <= j < |got| ==> got[j] in tags' && got[j].name == names[j]
    ensures var s' := InsertProblem(s, tags', got, q);
      forall n :: n in names <==> exists t :: t in s'.tags && t.name == n && Link(q.id, t.id) in s'.links
  {
    forall l | l in s.links ensures l.problemId != q.id {
      var k :| 0 <= k < |s.links| && s.links[k] == l;
    }
    LinkedExactly(s.links, tags', got, names, q.id);
  }

  /** The id a new problem gets. */
  function NewId(s: Store): int
  {
    NextId(ProblemIds(s.problems))
  }

  /** The id of a new problem is above every id in use: 1 in an empty
      table, otherwise one more than an id in use. */
  lemma NewIdFacts(s: Store)
    ensures forall i :: 0 <= i < |s.problems| ==> s.problems[i].id < NewId(s)
    ensures |s.problems| == 0 ==> NewId(s) == 1
    ensures |s.problems| > 0 ==> NewId(s) - 1 in ProblemIdSet(s.problems)
  {
    NextProblemId(s.problems);
  }

  /** Where the copy of a new problem's code file goes. */
  function NewCopyPath(rt: Runes, codeDir: string, p: Params, s: Store): string
  {
    PathJoin(codeDir, CodeFileName(Slug.SetSlug(rt, NewId(s), p.title), p.codePath))
  }

  // ---------------------------------------------------------------------
  // Properties of add
  // ---------------------------------------------------------------------

  /** On a consistent store, add fails exactly when the difficulty is not a
      level, a tag lookup breaks, the code file cannot be read, or its copy
      cannot be written; a failed add leaves the files as they were. */
  lemma AddFailsExactly(rt: Runes, codeDir: string, broken: set<string>, now: DateTime, p: Params, s: Store, fs: Fs)
    requires StoreOk(rt, s)
    ensures var names := NormalizeTags(rt.lower, p.tags);
      AddProblem(rt, codeDir, broken, now, p, s, fs).db.Ok? <==>
        && Valid(rt.lower, p.difficulty).0
        && (forall i :: 0 <= i < |names| ==> names[i] !in broken)
        && p.codePath in fs.files
        && NewCopyPath(rt, codeDir, p, s) !in fs.locked
    ensures AddProblem(rt, codeDir, broken, now, p, s, fs).db.Err? ==> AddProblem(rt, codeDir, broken, now, p, s, fs).fs == fs
  {
    var id := NewId(s);
    assert id >= 1;
    SlugOfOtherId(rt, s, id, p.title);
  }

  /** Add keeps the store consistent. */
  lemma AddKeepsStoreOk(rt: Runes, codeDir: string, broken: set<string>, now: DateTime, p: Params, s: Store, fs: Fs)
    requires StoreOk(rt, s)
    requires AddProblem(rt, codeDir, broken, now, p, s, fs).db.Ok?
    ensures StoreOk(rt, AddProblem(rt, codeDir, broken, now, p, s, fs).db.value)
  {
    var names := NormalizeTags(rt.lower, p.tags);
    var (tags', got) := ResolveTags(s.tags, names, broken).value;
    ResolveTagsKeepsTable(s.tags, names, broken);
    var s' := AddProblem(rt, codeDir, broken, now, p, s, fs).db.value;
    var q := s'.problems[|s.problems|];
    assert s' == InsertProblem(s, tags', got, q);
    InsertKeepsStoreOk(rt, s, tags', got, q);
  }

  /** The added problem is the last row. Its id is one more than the
      largest earlier id (1 in an empty table); it carries the given title,
      solution URL and note, the slug its id and title give, the lowercase
      difficulty, a code path naming a copy of the given file, the score add
      reads, `now` as both creation and update time, and no description; it
      is what a lookup of its slug finds. */
  lemma AddedProblemRow(rt: Runes, codeDir: string, broken: set<string>, now: DateTime, p: Params, s: Store, fs: Fs)
    requires StoreOk(rt, s)
    requires AddProblem(rt, codeDir, broken, now, p, s, fs).db.Ok?
    ensures var r := AddProblem(rt, codeDir, broken, now, p, s, fs);
      var q := r.db.value.problems[|s.problems|];
      && FreshProblemId(s.problems, q.id)
      && q.title == p.title && q.solutionURL == p.solution && q.note == p.note
      && q.slug == Slug.SetSlug(rt, q.id, p.title)
      && q.difficulty == LowerAll(rt.lower, p.difficulty) && q.difficulty in Levels
      && q.codePath == NewCopyPath(rt, codeDir, p, s)
      && ReadFile(r.fs, q.codePath) == ReadFile(fs, p.codePath)
      && q.score == AddScore(p.score)
      && q.createdAt == now && q.updatedAt == now && q.description == ""
      && FindBySlug(r.db.value.problems, q.slug) == Some(|s.problems|)
  {
    AddInserts(rt, codeDir, broken, now, p, s, fs);
    var rs := ResolveTags(s.tags, NormalizeTags(rt.lower, p.tags), broken);
    var q := AddedRow(rt, codeDir, now, p, s);
    var db := AddProblem(rt, codeDir, broken, now, p, s, fs).db.value;
    assert db == InsertProblem(s, rs.value.0, rs.value.1, q);
    assert db.problems == s.problems + [q];
    AddedRowId(rt, codeDir, now, p, s);
    assert db.problems[|s.problems|] == q;
    SlugOfOtherId(rt, s, q.id, p.title);
    FindBySlugAppend(s.problems, q);
  }

  /** The id autoincrement gives a new row: above every id in use, 1 in
      an empty table, otherwise one more than an id in use. */
  predicate FreshProblemId(ps: seq<Problem>, id: int)
  {
    && (forall i :: 0 <= i < |ps| ==> ps[i].id < id)
    && (|ps| == 0 ==> id == 1)
    && (|ps| > 0 ==> id - 1 in ProblemIdSet(ps))
  }

  lemma AddedRowId(rt: Runes, codeDir: string, now: DateTime, p: Params, s: Store)
    ensures FreshProblemId(s.problems, AddedRow(rt, codeDir, now, p, s).id)
  {
    NewIdFacts(s);
  }

  /** The row a successful add inserts. */
  function AddedRow(rt: Runes, codeDir: string, now: DateTime, p: Params, s: Store): Problem
  {
    Problem(NewId(s), p.title, Slug.SetSlug(rt, NewId(s), p.title), Valid(rt.lower, p.difficulty).1,
            p.solution, p.note, NewCopyPath(rt, codeDir, p, s), AddScore(p.score), now, now, "")
  }

  /** A successful add inserts AddedRow with the tags tag resolution gives,
      and leaves the copy written. */
  lemma AddInserts(rt: Runes, codeDir: string, broken: set<string>, now: DateTime, p: Params, s: Store, fs: Fs)
    requires AddProblem(rt, codeDir, broken, now, p, s, fs).db.Ok?
    ensures var rs := ResolveTags(s.tags, NormalizeTags(rt.lower, p.tags), broken);
      var r := AddProblem(rt, codeDir, broken, now, p, s, fs);
      && rs.Ok?
      && r.db.value == InsertProblem(s, rs.value.0, rs.value.1, AddedRow(rt, codeDir, now, p, s))
      && ReadFile(r.fs, NewCopyPath(rt, codeDir, p, s)) == ReadFile(fs, p.codePath)
  {
  }

  lemma {:induction false} FindBySlugAppend(ps: seq<Problem>, q: Problem)
    requires forall i :: 0 <= i < |ps| ==> ps[i].slug != q.slug
    ensures FindBySlug(ps + [q], q.slug) == Some(|ps|)
  {
    if |ps| > 0 {
      assert (ps + [q])[1..] == ps[1..] + [q];
      FindBySlugAppend(ps[1..], q);
    }
  }

  /** The added problem is linked to exactly the tags the list names, after
      normalisation. */
  lemma AddedProblemTags(rt: Runes, codeDir: string, broken: set<string>, now: DateTime, p: Params, s: Store, fs: Fs)
    requires StoreOk(rt, s)
    requires AddProblem(rt, codeDir, broken, now, p, s, fs).db.Ok?
    ensures var s' := AddProblem(rt, codeDir, broken, now, p, s, fs).db.value;
      var id := s'.problems[|s.problems|].id;
      forall n :: n in NormalizeTags(rt.lower, p.tags) <==> exists t :: t in s'.tags && t.name == n && Link(id, t.id) in s'.links
  {
    var names := NormalizeTags(rt.lower, p.tags);
    var (tags', got) := ResolveTags(s.tags, names, broken).value;
    ResolveTagsKeepsTable(s.tags, names, broken);
    var s' := AddProblem(rt, codeDir, broken, now, p, s, fs).db.value;
    var q := s'.problems[|s.problems|];
    assert s' == InsertProblem(s, tags', got, q);
    assert q.id !in ProblemIdSet(s.problems);
    InsertedTags(s, tags', got, names, q);
  }
}
