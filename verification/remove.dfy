/** `algo rm <slug>` (cmd/remove.go): the problem's tag links and row are
    deleted in one transaction, and then its managed code file. */
module Remove {
  import opened Wrappers
  import opened Files
  import opened Model
  import opened Store
  import opened Common
  import opened Text
  import Add

  /** The rows without row `i`. */
  function Without(ps: seq<Problem>, i: int): (r: seq<Problem>)
    requires 0 <= i < |ps|
    ensures |r| == |ps| - 1
    ensures forall j :: 0 <= j < i ==> r[j] == ps[j]
    ensures forall j :: i <= j < |r| ==> r[j] == ps[j + 1]
  {
    ps[..i] + ps[i + 1..]
  }

  /** deleteProblem: an unknown slug is an error; otherwise the join rows
      and the row go, and the code file named by the row is removed. A code
      file that is already gone is fine; one that cannot be removed rolls
      the transaction back. */
  function RemoveProblem(slug: string, s: Store, fs: Fs): (r: Effect)
    ensures FindBySlug(s.problems, slug).None? ==> r == Effect(Err(NotFound(slug)), fs)
    ensures r.db.Ok? <==>
      && FindBySlug(s.problems, slug).Some?
      && var p := s.problems[FindBySlug(s.problems, slug).value];
         !(p.codePath != "" && p.codePath in fs.files && p.codePath in fs.locked)
    ensures r.db.Err? ==> r.fs == fs
    ensures r.db.Ok? ==> r.db.value.tags == s.tags && |r.db.value.problems| == |s.problems| - 1
  {
    match FindBySlug(s.problems, slug)
    case None => Effect(Err(NotFound(slug)), fs)
    case Some(i) =>
      var p := s.problems[i];
      match ClearProblemTags(s, p.id)
      case Err(err) => Effect(Err(err), fs)
      case Ok((cleared, _)) =>
        var s' := cleared.(problems := Without(s.problems, i));
        if p.codePath == "" then Effect(Ok(s'), fs)
        else match RemoveFile(fs, p.codePath)
          case Removed(fs') => Effect(Ok(s'), fs')
          case Absent => Effect(Ok(s'), fs)
          case Refused => Effect(Err(CodeRemoveFailed(p.codePath)), fs)
  }

  // ---------------------------------------------------------------------
  // Properties of remove
  // ---------------------------------------------------------------------

  /** A successful remove deletes that problem's row and join rows and
      nothing else, and its code file is gone afterwards while every other
      file is untouched. In a consistent store the slug is then unknown. */
  lemma RemoveDeletesOnlyTheProblem(rt: Runes, slug: string, s: Store, fs: Fs)
    requires StoreOk(rt, s)
    requires RemoveProblem(slug, s, fs).db.Ok?
    ensures var r := RemoveProblem(slug, s, fs);
      var i := FindBySlug(s.problems, slug).value;
      var p := s.problems[i];
      && (forall j :: 0 <= j < |s.problems| && j != i ==> s.problems[j] in r.db.value.problems)
      && (forall l :: l in r.db.value.links <==> l in s.links && l.problemId != p.id)
      && FindBySlug(r.db.value.problems, slug).None?
      && (p.codePath != "" ==> ReadFile(r.fs, p.codePath) == None)
      && (forall f :: f != p.codePath ==> ReadFile(r.fs, f) == ReadFile(fs, f))
  {
    var i := FindBySlug(s.problems, slug).value;
    var ps' := Without(s.problems, i);
    SlugsUnique(rt, s);
    forall j | 0 <= j < |s.problems| && j != i
      ensures s.problems[j] in ps'
    {
      if j < i { assert ps'[j] == s.problems[j]; } else { assert ps'[j - 1] == s.problems[j]; }
    }
    forall j | 0 <= j < |ps'|
      ensures ps'[j].slug != slug
    {
      if j < i { assert ps'[j] == s.problems[j]; } else { assert ps'[j] == s.problems[j + 1]; }
    }
  }

  /** Dropping row `i` keeps the other ids distinct and loses exactly the
      id of that row. */
  lemma WithoutIds(ps: seq<Problem>, i: int)
    requires 0 <= i < |ps| && UniqueIds(ps)
    ensures UniqueIds(Without(ps, i))
    ensures ProblemIdSet(Without(ps, i)) == ProblemIdSet(ps) - {ps[i].id}
  {
    var ps' := Without(ps, i);
    forall a, b | 0 <= a < b < |ps'| ensures ps'[a].id != ps'[b].id {
      var a' := if a < i then a else a + 1;
      var b' := if b < i then b else b + 1;
      assert ps'[a] == ps[a'] && ps'[b] == ps[b'];
    }
    forall id | id in ProblemIdSet(ps) - {ps[i].id} ensures id in ProblemIdSet(ps') {
      var a :| 0 <= a < |ps| && ps[a].id == id;
      if a < i { assert ps'[a] == ps[a]; } else { assert ps'[a - 1] == ps[a]; }
    }
    forall id | id in ProblemIdSet(ps') ensures id in ProblemIdSet(ps) - {ps[i].id} {
      var a :| 0 <= a < |ps'| && ps'[a].id == id;
      if a < i { assert ps'[a] == ps[a]; } else { assert ps'[a] == ps[a + 1]; }
    }
  }

  /** Deleting a row together with its join rows keeps a store consistent. */
  lemma DropKeepsStoreOk(rt: Runes, s: Store, i: int)
    requires StoreOk(rt, s) && 0 <= i < |s.problems|
    ensures StoreOk(rt, Store(Without(s.problems, i), s.tags, Unlink(s.links, s.problems[i].id)))
  {
    var pid := s.problems[i].id;
    var s' := Store(Without(s.problems, i), s.tags, Unlink(s.links, pid));
    RowsOkRemove(rt, s.problems, i);
    assert Without(s.problems, i) == s.problems[..i] + s.problems[i + 1..];
    WithoutIds(s.problems, i);
    UnlinkDistinct(s.links, pid);
    forall k | 0 <= k < |s'.links|
      ensures s'.links[k].problemId in ProblemIdSet(s'.problems) && s'.links[k].tagId in TagIdSet(s'.tags)
    {
      var l := s'.links[k];
      assert l in s.links && l.problemId != pid;
    }
  }

  /** Remove keeps the store consistent. */
  lemma RemoveKeepsStoreOk(rt: Runes, slug: string, s: Store, fs: Fs)
    requires StoreOk(rt, s)
    requires RemoveProblem(slug, s, fs).db.Ok?
    ensures StoreOk(rt, RemoveProblem(slug, s, fs).db.value)
  {
    var i := FindBySlug(s.problems, slug).value;
    DropKeepsStoreOk(rt, s, i);
    assert RemoveProblem(slug, s, fs).db.value == Store(Without(s.problems, i), s.tags, Unlink(s.links, s.problems[i].id));
  }

  /** Removing the problem that add just created gives back the rows and
      the join table from before the add, and the copy of the code file is
      gone again; only the tags the add created stay behind. */
  lemma RemoveUndoesAdd(rt: Runes, codeDir: string, broken: set<string>, now: DateTime, p: Params, s: Store, fs: Fs)
    requires StoreOk(rt, s)
    requires Add.AddProblem(rt, codeDir, broken, now, p, s, fs).db.Ok?
    ensures var a := Add.AddProblem(rt, codeDir, broken, now, p, s, fs);
      var q := a.db.value.problems[|s.problems|];
      var r := RemoveProblem(q.slug, a.db.value, a.fs);
      && r.db == Ok(Store(s.problems, a.db.value.tags, s.links))
      && ReadFile(r.fs, q.codePath) == None
      && (forall f :: f != q.codePath ==> ReadFile(r.fs, f) == ReadFile(fs, f))
  {
    var a := Add.AddProblem(rt, codeDir, broken, now, p, s, fs);
    var s1 := a.db.value;
    var q := s1.problems[|s.problems|];
    Add.AddedProblemRow(rt, codeDir, broken, now, p, s, fs);
    var names := Add.NormalizeTags(rt.lower, p.tags);
    var (tags', got) := Add.ResolveTags(s.tags, names, broken).value;
    assert s1 == Add.InsertProblem(s, tags', got, q);
    assert Without(s1.problems, |s.problems|) == s.problems;
    forall k | 0 <= k < |s.links| ensures s.links[k].problemId != q.id {
      var j :| 0 <= j < |s.problems| && s.problems[j].id == s.links[k].problemId;
    }
    UnlinkUndoesLinkAll(s.links, q.id, TagIds(got));
  }
}
