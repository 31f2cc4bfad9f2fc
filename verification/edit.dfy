/** `algo edit <slug>` (cmd/edit.go): every non-empty flag replaces one
    field of the problem, in a fixed order, inside one transaction. */
module Edit {
  import opened Wrappers
  import opened Text
  import opened Numbers
  import opened Files
  import opened Model
  import opened Store
  import opened Common
  import opened Add
  import Slug

  /** The score step of edit: no text keeps the score; text that is not a
      number aborts the edit; a number from 0 to 255 replaces the score and
      any other number keeps it. */
  function EditScore(prev: Option<Uint8>, text: string): (r: Result<Option<Uint8>, Error>)
    ensures r.Err? <==> text != "" && Atoi(text).Err?
    ensures r.Err? ==> r.error == InvalidScore(text)
  {
    if text == "" then Ok(prev)
    else match Atoi(text)
      case Err(_) => Err(InvalidScore(text))
      case Ok(v) => if 0 <= v <= 255 then Ok(Some(v)) else Ok(prev)
  }

  /** Edit and add read a given score the same way; edit differs only in
      refusing text that is not a number, and in keeping the old score
      where add leaves it unset. */
  lemma EditScoreAgreesWithAdd(prev: Option<Uint8>, text: string)
    requires text != "" && Atoi(text).Ok?
    ensures EditScore(prev, text) == Ok(if AddScore(text).Some? then AddScore(text) else prev)
  {
  }

  /** Some other row than row `i` already has this slug. */
  predicate SlugTaken(ps: seq<Problem>, i: int, slug: string)
  {
    exists j :: 0 <= j < |ps| && j != i && ps[j].slug == slug
  }

  /** How the tag step leaves the row being edited. `AsWritten` follows
      cmd/common.go:53: clearProblemTags reloads the stored row into the
      struct the edit has been changing, so a title, slug or difficulty set
      before the tag step is lost. `Intended` keeps the row as edited so far
      (see Findings in the README). */
  datatype TagStep = AsWritten | Intended

  /** Whether the tag step throws away the edits made before it. */
  predicate Reloads(m: TagStep, e: Params)
  {
    m.AsWritten? && e.tags != ""
  }

  /** The title step: a new title sets the title and derives the slug
      again from it. */
  function Retitle(rt: Runes, e: Params, p: Problem): Problem
  {
    if e.title != "" then p.(title := e.title, slug := Slug.SetSlug(rt, p.id, e.title)) else p
  }

  /** The title and difficulty steps, which run before the tag step (the
      difficulty has been checked by then). */
  function BeforeTags(rt: Runes, e: Params, p0: Problem): Problem
  {
    var p1 := Retitle(rt, e, p0);
    if e.difficulty != "" then p1.(difficulty := Valid(rt.lower, e.difficulty).1) else p1
  }

  /** The row after the tag step, for a stored row `p0` that the reload
      gives back unchanged. */
  function AfterTags(m: TagStep, rt: Runes, e: Params, p0: Problem): Problem
  {
    if Reloads(m, e) then p0 else BeforeTags(rt, e, p0)
  }

  /** The solution and note steps. */
  function Annotate(e: Params, p: Problem): Problem
  {
    p.(solutionURL := if e.solution != "" then e.solution else p.solutionURL,
       note := if e.note != "" then e.note else p.note)
  }

  /** The tag step of edit: with a tag list the tags are resolved as for
      add (CheckTags), clearProblemTags reloads the stored row and clears the
      problem's join rows, and one row per resolved tag is inserted
      (Association Replace). The result is the new store and the row the
      edit goes on with. */
  function EditTags(m: TagStep, broken: set<string>, lower: char -> char, tags: string, s: Store, p: Problem): (r: Result<(Store, Problem), Error>)
    ensures tags == "" ==> r == Ok((s, p))
    ensures r.Ok? ==> r.value.0.problems == s.problems && s.tags <= r.value.0.tags
    ensures r.Ok? ==> forall l: Link :: l.problemId != p.id ==> (l in r.value.0.links <==> l in s.links)
    ensures r.Ok? && tags != "" && m.AsWritten? ==> r.value.1 in s.problems && r.value.1.id == p.id
    ensures r.Ok? && m.Intended? ==> r.value.1 == p
  {
    if tags == "" then Ok((s, p))
    else match ResolveTags(s.tags, NormalizeTags(lower, tags), broken)
      case Err(err) => Err(err)
      case Ok((ts', got)) =>
        match ClearProblemTags(s.(tags := ts'), p.id)
        case Err(err) => Err(err)
        case Ok((cleared, stored)) =>
          Ok((cleared.(links := LinkAll(cleared.links, p.id, TagIds(got))), if m.AsWritten? then stored else p))
  }

  /** The code step of edit: a new code path is copied under the slug the
      row has at that point. */
  function EditCode(fs: Fs, codeDir: string, slug: string, codePath: string, prev: string): (r: Result<(string, Fs), Error>)
    ensures codePath == "" ==> r == Ok((prev, fs))
  {
    if codePath == "" then Ok((prev, fs)) else SetCodePath(fs, codeDir, slug, codePath)
  }

  /** editProblem: look the problem up by slug; apply title, difficulty,
      tags, solution, note, code path and score in that order, each only
      when its flag is not empty; save the row with `now` as update time. */
  function EditProblem(m: TagStep, rt: Runes, codeDir: string, broken: set<string>, now: DateTime,
                       slug: string, e: Params, s: Store, fs: Fs): (r: Effect)
    ensures FindBySlug(s.problems, slug).None? ==> r == Effect(Err(NotFound(slug)), fs)
    ensures r.db.Ok? ==> |r.db.value.problems| == |s.problems| && s.tags <= r.db.value.tags
  {
    match FindBySlug(s.problems, slug)
    case None => Effect(Err(NotFound(slug)), fs)
    case Some(i) =>
      var p0 := s.problems[i];
      if e.difficulty != "" && !Valid(rt.lower, e.difficulty).0 then Effect(Err(InvalidDifficulty(e.difficulty)), fs)
      else
        match EditTags(m, broken, rt.lower, e.tags, s, BeforeTags(rt, e, p0))
        case Err(err) => Effect(Err(err), fs)
        case Ok((s', p3)) =>
          var p4 := Annotate(e, p3);
          match EditCode(fs, codeDir, p4.slug, e.codePath, p4.codePath)
          case Err(err) => Effect(Err(err), fs)
          case Ok((path, fs')) =>
            match EditScore(p4.score, e.score)
            case Err(err) => Effect(Err(err), fs')
            case Ok(score) =>
              var p5 := p4.(codePath := path, score := score, updatedAt := now);
              if SlugTaken(s.problems, i, p5.slug) then Effect(Err(DuplicateSlug(p5.slug)), fs')
              else Effect(Ok(s'.(problems := s.problems[i := p5])), fs')
  }

  // ---------------------------------------------------------------------
  // Properties of edit
  // ---------------------------------------------------------------------

  /** The row an edit writes for row `p0`, when every step succeeds. */
  function EditedRow(m: TagStep, rt: Runes, codeDir: string, now: DateTime, e: Params, p0: Problem, fs: Fs): Problem
  {
    Finish(codeDir, now, e, AfterTags(m, rt, e, p0), fs)
  }

  /** The steps after the tag step, applied to the row `p3` it goes on
      with. */
  function Finish(codeDir: string, now: DateTime, e: Params, p3: Problem, fs: Fs): Problem
  {
    var p4 := Annotate(e, p3);
    var path := EditCode(fs, codeDir, p4.slug, e.codePath, p4.codePath);
    var score := EditScore(p4.score, e.score);
    p4.(codePath := if path.Ok? then path.value.0 else p4.codePath,
        score := if score.Ok? then score.value else p4.score,
        updatedAt := now)
  }

  /** With unique ids, the tag step goes on with the row AfterTags
      describes. */
  lemma TagStepRow(m: TagStep, rt: Runes, broken: set<string>, e: Params, s: Store, i: int)
    requires UniqueIds(s.problems) && 0 <= i < |s.problems|
    requires EditTags(m, broken, rt.lower, e.tags, s, BeforeTags(rt, e, s.problems[i])).Ok?
    ensures EditTags(m, broken, rt.lower, e.tags, s, BeforeTags(rt, e, s.problems[i])).value.1 == AfterTags(m, rt, e, s.problems[i])
  {
    if e.tags != "" && m.AsWritten? {
      var ts' := ResolveTags(s.tags, NormalizeTags(rt.lower, e.tags), broken).value.0;
      ReloadIsStoredRow(s.(tags := ts'), i);
    }
  }

  /** A successful edit rewrites exactly the row found by the slug, with
      the row EditedRow describes, and leaves every other row alone; the
      tags and join tables are those of the tag step. */
  lemma EditWritesOneRow(m: TagStep, rt: Runes, codeDir: string, broken: set<string>, now: DateTime,
                         slug: string, e: Params, s: Store, fs: Fs)
    requires UniqueIds(s.problems)
    requires EditProblem(m, rt, codeDir, broken, now, slug, e, s, fs).db.Ok?
    ensures FindBySlug(s.problems, slug).Some?
    ensures var i := FindBySlug(s.problems, slug).value;
      var tl := EditTags(m, broken, rt.lower, e.tags, s, BeforeTags(rt, e, s.problems[i]));
      && tl.Ok?
      && EditProblem(m, rt, codeDir, broken, now, slug, e, s, fs).db.value
           == tl.value.0.(problems := s.problems[i := EditedRow(m, rt, codeDir, now, e, s.problems[i], fs)])
  {
    var i := FindBySlug(s.problems, slug).value;
    EditValue(m, rt, codeDir, broken, now, slug, e, s, fs);
    TagStepRow(m, rt, broken, e, s, i);
  }

  /** A successful edit saves the row the later steps make of the tag
      step's row into the tag step's tables. */
  lemma EditValue(m: TagStep, rt: Runes, codeDir: string, broken: set<string>, now: DateTime,
                  slug: string, e: Params, s: Store, fs: Fs)
    requires EditProblem(m, rt, codeDir, broken, now, slug, e, s, fs).db.Ok?
    ensures FindBySlug(s.problems, slug).Some?
    ensures var i := FindBySlug(s.problems, slug).value;
      var tl := EditTags(m, broken, rt.lower, e.tags, s, BeforeTags(rt, e, s.problems[i]));
      && tl.Ok?
      && EditProblem(m, rt, codeDir, broken, now, slug, e, s, fs).db.value
           == tl.value.0.(problems := s.problems[i := Finish(codeDir, now, e, tl.value.1, fs)])
  {
  }

  /** A successful edit leaves the tags and join tables of its tag step. */
  lemma EditTables(m: TagStep, rt: Runes, codeDir: string, broken: set<string>, now: DateTime,
                   slug: string, e: Params, s: Store, fs: Fs)
    requires EditProblem(m, rt, codeDir, broken, now, slug, e, s, fs).db.Ok?
    ensures FindBySlug(s.problems, slug).Some?
    ensures var i := FindBySlug(s.problems, slug).value;
      var tl := EditTags(m, broken, rt.lower, e.tags, s, BeforeTags(rt, e, s.problems[i]));
      var s' := EditProblem(m, rt, codeDir, broken, now, slug, e, s, fs).db.value;
      && tl.Ok?
      && s'.tags == tl.value.0.tags && s'.links == tl.value.0.links
  {
    EditValue(m, rt, codeDir, broken, now, slug, e, s, fs);
  }

  /** Where an edit copies a new code file: named after the slug the row
      has at the code step. That is the new title's slug, except when the
      tag step has reloaded the stored row, which brings the old slug back. */
  function EditCopyPath(m: TagStep, rt: Runes, codeDir: string, e: Params, p0: Problem): string
  {
    PathJoin(codeDir, CodeFileName(AfterTags(m, rt, e, p0).slug, e.codePath))
  }

  /** Field by field: a non-empty flag sets its field and an empty one keeps
      it, except that a reloading tag step gives back the stored title, slug
      and difficulty; the id never changes; the slug follows the title; the
      code copy is named as EditCopyPath says; a score that reads as a number
      from 0 to 255 is set and any other number keeps the old score; the
      update time is the edit's. */
  lemma EditedRowFields(m: TagStep, rt: Runes, codeDir: string, now: DateTime, e: Params, p0: Problem, fs: Fs)
    requires p0.slug == Slug.SetSlug(rt, p0.id, p0.title)
    requires e.difficulty == "" || Valid(rt.lower, e.difficulty).0
    ensures var q := EditedRow(m, rt, codeDir, now, e, p0, fs);
      && q.id == p0.id
      && q.title == (if e.title != "" && !Reloads(m, e) then e.title else p0.title)
      && q.slug == Slug.SetSlug(rt, q.id, q.title)
      && q.difficulty == (if e.difficulty != "" && !Reloads(m, e) then LowerAll(rt.lower, e.difficulty) else p0.difficulty)
      && q.solutionURL == (if e.solution != "" then e.solution else p0.solutionURL)
      && q.note == (if e.note != "" then e.note else p0.note)
      && (e.codePath == "" ==> q.codePath == p0.codePath)
      && (e.codePath != "" && e.codePath in fs.files && EditCopyPath(m, rt, codeDir, e, p0) !in fs.locked ==>
            q.codePath == EditCopyPath(m, rt, codeDir, e, p0))
      && (e.score == "" ==> q.score == p0.score)
      && (Atoi(e.score).Ok? && 0 <= Atoi(e.score).value <= 255 ==> q.score == Some(Atoi(e.score).value))
      && (Atoi(e.score).Ok? && !(0 <= Atoi(e.score).value <= 255) ==> q.score == p0.score)
      && q.createdAt == p0.createdAt && q.updatedAt == now && q.description == p0.description
  {
  }

  /** An edit with no flags only touches the update time. */
  lemma EditNothing(m: TagStep, rt: Runes, codeDir: string, broken: set<string>, now: DateTime,
                    slug: string, s: Store, fs: Fs)
    requires StoreOk(rt, s)
    requires FindBySlug(s.problems, slug).Some?
    ensures var i := FindBySlug(s.problems, slug).value;
      EditProblem(m, rt, codeDir, broken, now, slug, Params("", "", "", "", "", "", ""), s, fs)
        == Effect(Ok(s.(problems := s.problems[i := s.problems[i].(updatedAt := now)])), fs)
  {
    var i := FindBySlug(s.problems, slug).value;
    SlugsUnique(rt, s);
  }

  /** In a consistent store the slug the edited row ends with never clashes
      with another row: it is derived from the row's own id. */
  lemma EditedSlugFree(m: TagStep, rt: Runes, s: Store, i: int, e: Params)
    requires StoreOk(rt, s) && 0 <= i < |s.problems|
    ensures !SlugTaken(s.problems, i, AfterTags(m, rt, e, s.problems[i]).slug)
  {
    var p0 := s.problems[i];
    RowsOkAt(rt, s.problems, i);
    var t := AfterTags(m, rt, e, p0).title;
    assert AfterTags(m, rt, e, p0).slug == Slug.SetSlug(rt, p0.id, t);
    SlugOfOtherId(rt, s, p0.id, t);
    forall j | 0 <= j < |s.problems| && j != i
      ensures s.problems[j].slug != AfterTags(m, rt, e, p0).slug
    {
      assert s.problems[j].id != p0.id;
    }
  }

  /** On a consistent store, an edit fails exactly when the slug is
      unknown, the difficulty given is not a level, a tag lookup breaks, a
      code file given cannot be read or copied, or a score given is not a
      number. */
  lemma EditFailsExactly(m: TagStep, rt: Runes, codeDir: string, broken: set<string>, now: DateTime,
                         slug: string, e: Params, s: Store, fs: Fs)
    requires StoreOk(rt, s)
    ensures var names := NormalizeTags(rt.lower, e.tags);
      EditProblem(m, rt, codeDir, broken, now, slug, e, s, fs).db.Ok? <==>
        && FindBySlug(s.problems, slug).Some?
        && (e.difficulty == "" || Valid(rt.lower, e.difficulty).0)
        && (e.tags == "" || forall k :: 0 <= k < |names| ==> names[k] !in broken)
        && (e.codePath == "" || (e.codePath in fs.files && EditCopyPath(m, rt, codeDir, e, s.problems[FindBySlug(s.problems, slug).value]) !in fs.locked))
        && (e.score == "" || Atoi(e.score).Ok?)
  {
    if FindBySlug(s.problems, slug).Some? {
      var i := FindBySlug(s.problems, slug).value;
      var p0 := s.problems[i];
      EditSteps(m, rt, codeDir, broken, now, slug, e, s, fs);
      EditedSlugFree(m, rt, s, i, e);
      assert p0.id in ProblemIdSet(s.problems);
      EditTagsOk(m, broken, rt.lower, e.tags, s, BeforeTags(rt, e, p0));
      if EditTags(m, broken, rt.lower, e.tags, s, BeforeTags(rt, e, p0)).Ok? {
        TagStepRow(m, rt, broken, e, s, i);
      }
    }
  }

  /** An edit of a found row succeeds exactly when each of its steps does
      and the final slug is free. */
  lemma EditSteps(m: TagStep, rt: Runes, codeDir: string, broken: set<string>, now: DateTime,
                  slug: string, e: Params, s: Store, fs: Fs)
    requires FindBySlug(s.problems, slug).Some?
    ensures var i := FindBySlug(s.problems, slug).value;
      var tl := EditTags(m, broken, rt.lower, e.tags, s, BeforeTags(rt, e, s.problems[i]));
      EditProblem(m, rt, codeDir, broken, now, slug, e, s, fs).db.Ok? <==>
        && (e.difficulty == "" || Valid(rt.lower, e.difficulty).0)
        && tl.Ok?
        && EditCode(fs, codeDir, tl.value.1.slug, e.codePath, tl.value.1.codePath).Ok?
        && EditScore(tl.value.1.score, e.score).Ok?
        && !SlugTaken(s.problems, i, tl.value.1.slug)
  {
  }

  /** With the row's id in the table, the tag step fails exactly when a
      tag lookup breaks. */
  lemma EditTagsOk(m: TagStep, broken: set<string>, lower: char -> char, tags: string, s: Store, p: Problem)
    requires p.id in ProblemIdSet(s.problems)
    ensures var names := NormalizeTags(lower, tags);
      EditTags(m, broken, lower, tags, s, p).Ok? <==> (tags == "" || forall k :: 0 <= k < |names| ==> names[k] !in broken)
  {
  }

  /** Without a tag list that reloads the row, a retitle that changes the
      slug moves the problem: the old slug finds nothing any more and the
      new slug finds the same row. */
  lemma RetitleMovesSlug(m: TagStep, rt: Runes, codeDir: string, broken: set<string>, now: DateTime,
                         slug: string, e: Params, s: Store, fs: Fs)
    requires StoreOk(rt, s)
    requires EditProblem(m, rt, codeDir, broken, now, slug, e, s, fs).db.Ok?
    requires e.title != "" && !Reloads(m, e)
    requires Slug.SetSlug(rt, s.problems[FindBySlug(s.problems, slug).value].id, e.title) != slug
    ensures var i := FindBySlug(s.problems, slug).value;
      var ps := EditProblem(m, rt, codeDir, broken, now, slug, e, s, fs).db.value.problems;
      && FindBySlug(ps, slug).None?
      && FindBySlug(ps, Slug.SetSlug(rt, s.problems[i].id, e.title)) == Some(i)
  {
    var i := FindBySlug(s.problems, slug).value;
    var p0 := s.problems[i];
    var moved := Slug.SetSlug(rt, p0.id, e.title);
    EditWritesOneRow(m, rt, codeDir, broken, now, slug, e, s, fs);
    RowsOkAt(rt, s.problems, i);
    EditedRowFields(m, rt, codeDir, now, e, p0, fs);
    var ps := EditProblem(m, rt, codeDir, broken, now, slug, e, s, fs).db.value.problems;
    assert ps[i].slug == moved;
    SlugsUnique(rt, s);
    EditedSlugFree(m, rt, s, i, e);
    forall j | 0 <= j < |ps| ensures ps[j].slug != slug {
      if j != i { assert ps[j] == s.problems[j]; }
    }
  }

  /** As written, a tag list undoes the title and difficulty given in the
      same edit: the saved row keeps the stored title, slug and
      difficulty. */
  lemma TagsUndoRetitle(rt: Runes, codeDir: string, broken: set<string>, now: DateTime,
                        slug: string, e: Params, s: Store, fs: Fs)
    requires StoreOk(rt, s)
    requires EditProblem(AsWritten, rt, codeDir, broken, now, slug, e, s, fs).db.Ok?
    requires e.tags != ""
    ensures var p0 := s.problems[FindBySlug(s.problems, slug).value];
      var q := EditProblem(AsWritten, rt, codeDir, broken, now, slug, e, s, fs).db.value.problems[FindBySlug(s.problems, slug).value];
      && q.title == p0.title && q.slug == p0.slug && q.difficulty == p0.difficulty
  {
    EditWritesOneRow(AsWritten, rt, codeDir, broken, now, slug, e, s, fs);
  }

  /** With the intended tag step the saved row carries the title, slug and
      difficulty given, with or without a tag list. */
  lemma IntendedKeepsRetitle(rt: Runes, codeDir: string, broken: set<string>, now: DateTime,
                             slug: string, e: Params, s: Store, fs: Fs)
    requires StoreOk(rt, s)
    requires EditProblem(Intended, rt, codeDir, broken, now, slug, e, s, fs).db.Ok?
    ensures var p0 := s.problems[FindBySlug(s.problems, slug).value];
      var q := EditProblem(Intended, rt, codeDir, broken, now, slug, e, s, fs).db.value.problems[FindBySlug(s.problems, slug).value];
      && q.title == (if e.title != "" then e.title else p0.title)
      && q.slug == Slug.SetSlug(rt, p0.id, q.title)
      && q.difficulty == (if e.difficulty != "" then LowerAll(rt.lower, e.difficulty) else p0.difficulty)
  {
    var i := FindBySlug(s.problems, slug).value;
    EditWritesOneRow(Intended, rt, codeDir, broken, now, slug, e, s, fs);
    RowsOkAt(rt, s.problems, i);
    EditedRowFields(Intended, rt, codeDir, now, e, s.problems[i], fs);
  }

  /** The managed code copy survives a rolled-back edit: when the copy is
      written and the score text then aborts the edit, the database is
      unchanged but the new file stays. */
  lemma EditCopyOutlivesRollback(m: TagStep, rt: Runes, codeDir: string, broken: set<string>, now: DateTime,
                                 slug: string, e: Params, s: Store, fs: Fs)
    requires FindBySlug(s.problems, slug).Some?
    requires e.difficulty == "" || Valid(rt.lower, e.difficulty).0
    requires e.tags == ""
    requires e.codePath != "" && e.codePath in fs.files
    requires EditCopyPath(m, rt, codeDir, e, s.problems[FindBySlug(s.problems, slug).value]) !in fs.locked
    requires e.score != "" && Atoi(e.score).Err?
    ensures var r := EditProblem(m, rt, codeDir, broken, now, slug, e, s, fs);
      && r.db == Err(InvalidScore(e.score))
      && ReadFile(r.fs, EditCopyPath(m, rt, codeDir, e, s.problems[FindBySlug(s.problems, slug).value])) == Some(fs.files[e.codePath])
  {
  }

  /** Replacing a row by a consistent row with the same id keeps the rows
      consistent and the set of ids the same. */
  lemma UpdateKeepsRows(rt: Runes, ps: seq<Problem>, i: int, q: Problem)
    requires UniqueIds(ps) && RowsOk(rt, ps) && 0 <= i < |ps|
    requires ProblemOk(rt, q) && q.id == ps[i].id
    ensures UniqueIds(ps[i := q]) && RowsOk(rt, ps[i := q])
    ensures ProblemIdSet(ps[i := q]) == ProblemIdSet(ps)
  {
    var ps' := ps[i := q];
    RowsOkUpdate(rt, ps, i, q);
    forall a, b | 0 <= a < b < |ps'| ensures ps'[a].id != ps'[b].id {
      assert ps'[a].id == ps[a].id && ps'[b].id == ps[b].id;
    }
    forall x ensures x in ProblemIdSet(ps') <==> x in ProblemIdSet(ps) {
      if x in ProblemIdSet(ps) {
        var a :| 0 <= a < |ps| && ps[a].id == x;
        assert ps'[a].id == x;
      }
      if x in ProblemIdSet(ps') {
        var a :| 0 <= a < |ps'| && ps'[a].id == x;
        assert ps[a].id == x;
      }
    }
  }

  /** The tables a tag step with a tag list leaves: the resolved tags
      table, and the join table with the problem's rows replaced. */
  lemma TagStepTables(m: TagStep, broken: set<string>, lower: char -> char, tags: string, s: Store, p: Problem)
    requires tags != "" && EditTags(m, broken, lower, tags, s, p).Ok?
    ensures var rs := ResolveTags(s.tags, NormalizeTags(lower, tags), broken);
      && rs.Ok?
      && EditTags(m, broken, lower, tags, s, p).value.0
           == Store(s.problems, rs.value.0, LinkAll(Unlink(s.links, p.id), p.id, TagIds(rs.value.1)))
  {
  }

  /** Edit keeps the store consistent. */
  lemma EditKeepsStoreOk(m: TagStep, rt: Runes, codeDir: string, broken: set<string>, now: DateTime,
                         slug: string, e: Params, s: Store, fs: Fs)
    requires StoreOk(rt, s)
    requires EditProblem(m, rt, codeDir, broken, now, slug, e, s, fs).db.Ok?
    ensures StoreOk(rt, EditProblem(m, rt, codeDir, broken, now, slug, e, s, fs).db.value)
  {
    EditWritesOneRow(m, rt, codeDir, broken, now, slug, e, s, fs);
    var i := FindBySlug(s.problems, slug).value;
    var p0 := s.problems[i];
    var q := EditedRow(m, rt, codeDir, now, e, p0, fs);
    var p2 := BeforeTags(rt, e, p0);
    var tl := EditTags(m, broken, rt.lower, e.tags, s, p2).value.0;
    RowsOkAt(rt, s.problems, i);
    EditedRowFields(m, rt, codeDir, now, e, p0, fs);
    assert ProblemOk(rt, q);
    UpdateKeepsRows(rt, s.problems, i, q);
    assert p0.id in ProblemIdSet(s.problems);
    EditKeepsTags(m, rt, broken, e.tags, s, p2);
    EditKeepsLinks(m, rt, broken, e.tags, s, p2);
    var s' := EditProblem(m, rt, codeDir, broken, now, slug, e, s, fs).db.value;
    assert s' == tl.(problems := s.problems[i := q]);
    assert LinksOk(s');
  }

  lemma EditKeepsTags(m: TagStep, rt: Runes, broken: set<string>, tags: string, s: Store, p: Problem)
    requires TagTableOk(s.tags)
    requires EditTags(m, broken, rt.lower, tags, s, p).Ok?
    ensures TagTableOk(EditTags(m, broken, rt.lower, tags, s, p).value.0.tags)
  {
    if tags != "" {
      ResolveTagsKeepsTable(s.tags, NormalizeTags(rt.lower, tags), broken);
    }
  }

  /** The tag step keeps the join table consistent. */
  lemma EditKeepsLinks(m: TagStep, rt: Runes, broken: set<string>, tags: string, s: Store, p: Problem)
    requires LinksOk(s) && p.id in ProblemIdSet(s.problems)
    requires EditTags(m, broken, rt.lower, tags, s, p).Ok?
    ensures LinksOk(EditTags(m, broken, rt.lower, tags, s, p).value.0)
  {
    if tags != "" {
      var names := NormalizeTags(rt.lower, tags);
      var (ts', got) := ResolveTags(s.tags, names, broken).value;
      TagIdSetGrows(s.tags, ts');
      assert LinksOk(Store(s.problems, ts', s.links));
      forall j | 0 <= j < |TagIds(got)| ensures TagIds(got)[j] in TagIdSet(ts') {
        var m :| 0 <= m < |ts'| && ts'[m] == got[j];
      }
      RelinkKeepsLinks(s.problems, ts', s.links, p.id, TagIds(got));
      TagStepTables(m, broken, rt.lower, tags, s, p);
    }
  }

  /** After a tag step with a tag list the problem links exactly the tags
      the list names after normalisation. */
  lemma TagStepLinksNames(m: TagStep, broken: set<string>, lower: char -> char, tags: string, s: Store, p: Problem)
    requires TagTableOk(s.tags) && tags != ""
    requires EditTags(m, broken, lower, tags, s, p).Ok?
    ensures var t := EditTags(m, broken, lower, tags, s, p).value.0;
      forall n :: n in NormalizeTags(lower, tags) <==> exists x :: x in t.tags && x.name == n && Link(p.id, x.id) in t.links
  {
    var names := NormalizeTags(lower, tags);
    var (ts', got) := ResolveTags(s.tags, names, broken).value;
    ResolveTagsKeepsTable(s.tags, names, broken);
    TagStepTables(m, broken, lower, tags, s, p);
    LinkedExactly(Unlink(s.links, p.id), ts', got, names, p.id);
  }

  /** An edit with a tag list links the problem to exactly the tags the list
      names after normalisation (none at all for a list of blanks such as
      ","), and leaves the join rows of every other problem as they were. */
  lemma EditReplacesTags(m: TagStep, rt: Runes, codeDir: string, broken: set<string>, now: DateTime,
                         slug: string, e: Params, s: Store, fs: Fs)
    requires StoreOk(rt, s) && e.tags != ""
    requires EditProblem(m, rt, codeDir, broken, now, slug, e, s, fs).db.Ok?
    ensures var s' := EditProblem(m, rt, codeDir, broken, now, slug, e, s, fs).db.value;
      var pid := s.problems[FindBySlug(s.problems, slug).value].id;
      && (forall n :: n in NormalizeTags(rt.lower, e.tags) <==> exists t :: t in s'.tags && t.name == n && Link(pid, t.id) in s'.links)
      && (forall l: Link :: l.problemId != pid ==> (l in s'.links <==> l in s.links))
  {
    EditTables(m, rt, codeDir, broken, now, slug, e, s, fs);
    var i := FindBySlug(s.problems, slug).value;
    var p1 := BeforeTags(rt, e, s.problems[i]);
    assert p1.id == s.problems[i].id;
    TagStepLinksNames(m, broken, rt.lower, e.tags, s, p1);
  }
}
