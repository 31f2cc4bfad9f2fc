/** The database as a value: the problems and tags tables and the
    problem_tags join table, with the lookups and id sequencing the
    commands perform, and the invariant every command keeps. */
module Store {
  import opened Wrappers
  import opened Text
  import opened Model
  import opened Files
  import Slug

  /** A row of problem_tags; the pair is the table's primary key. */
  datatype Link = Link(problemId: int, tagId: int)

  datatype Store = Store(problems: seq<Problem>, tags: seq<Tag>, links: seq<Link>)

  /** What a command leaves behind. The database part is all-or-nothing:
      an error rolls the transaction back, so it carries no store. Files
      written before the error stay written. */
  datatype Effect = Effect(db: Result<Store, Error>, fs: Fs)

  /** `SELECT max(id)`, read as 0 for an empty table. */
  function MaxId(ids: seq<int>): (r: int)
    ensures forall i :: 0 <= i < |ids| ==> ids[i] <= r
    ensures |ids| == 0 ==> r == 0
    ensures |ids| > 0 ==> r in ids
  {
    if |ids| == 0 then 0
    else if |ids| == 1 then ids[0]
    else
      var m := MaxId(ids[1..]);
      if ids[0] >= m then ids[0] else m
  }

  function ProblemIds(ps: seq<Problem>): (r: seq<int>)
    ensures |r| == |ps| && forall i :: 0 <= i < |ps| ==> r[i] == ps[i].id
  {
    seq(|ps|, i requires 0 <= i < |ps| => ps[i].id)
  }

  function TagIds(ts: seq<Tag>): (r: seq<int>)
    ensures |r| == |ts| && forall i :: 0 <= i < |ts| ==> r[i] == ts[i].id
  {
    seq(|ts|, i requires 0 <= i < |ts| => ts[i].id)
  }

  /** The id given to a new row: one more than the largest id in the
      table. */
  function NextId(ids: seq<int>): (r: int)
    ensures forall i :: 0 <= i < |ids| ==> ids[i] < r
    ensures (forall i :: 0 <= i < |ids| ==> ids[i] >= 0) ==> r >= 1
    ensures |ids| == 0 ==> r == 1
    ensures |ids| > 0 ==> r - 1 in ids
  {
    MaxId(ids) + 1
  }

  /** `First(problem, id)`: the position of the problem with this id, if
      any. */
  function FindById(ps: seq<Problem>, id: int): (r: Option<nat>)
    ensures r.Some? ==> r.value < |ps| && ps[r.value].id == id
    ensures r.None? <==> id !in ProblemIdSet(ps)
  {
    if |ps| == 0 then None
    else if ps[0].id == id then Some(0)
    else match FindById(ps[1..], id)
      case None => None
      case Some(i) => Some(i + 1)
  }

  /** `WHERE slug = ? ... First`: the position of the problem with this
      slug, if any. */
  function FindBySlug(ps: seq<Problem>, slug: string): (r: Option<nat>)
    ensures r.Some? ==> r.value < |ps| && ps[r.value].slug == slug
    ensures r.None? <==> forall i :: 0 <= i < |ps| ==> ps[i].slug != slug
  {
    if |ps| == 0 then None
    else if ps[0].slug == slug then Some(0)
    else match FindBySlug(ps[1..], slug)
      case None => None
      case Some(i) => Some(i + 1)
  }

  /** `WHERE name = ? ... First` on the tags table. */
  function FindTag(ts: seq<Tag>, name: string): (r: Option<Tag>)
    ensures r.Some? ==> r.value in ts && r.value.name == name
    ensures r.None? <==> forall i :: 0 <= i < |ts| ==> ts[i].name != name
  {
    if |ts| == 0 then None
    else if ts[0].name == name then Some(ts[0])
    else FindTag(ts[1..], name)
  }

  /** The ids of the tags associated with a problem, in join-table order. */
  function LinkedTagIds(links: seq<Link>, pid: int): (r: seq<int>)
    ensures forall t :: t in r <==> Link(pid, t) in links
  {
    if |links| == 0 then []
    else (if links[0].problemId == pid then [links[0].tagId] else []) + LinkedTagIds(links[1..], pid)
  }

  /** The associated tag rows of a problem (Preload("Tags")). The preload
      reads the join rows, then `SELECT * FROM tags WHERE id IN (...)`,
      which SQLite answers in rowid order, and appends each row it gets
      back: exactly the linked rows, by ascending id. */
  function TagsOf(s: Store, pid: int): (r: seq<Tag>)
    ensures forall t :: t in r <==> t in s.tags && Link(pid, t.id) in s.links
    ensures AscendingIds(r)
  {
    var linked := LinkedTags(s.tags, s.links, pid);
    var r := SortById(linked);
    SameRows(r, linked);
    r
  }

  /** With unique tag ids, as the primary key makes them, a problem's tags
      are in strictly ascending id order, one per join row at most. */
  lemma TagsOfUnique(s: Store, pid: int)
    requires UniqueTagIds(s.tags)
    ensures var r := TagsOf(s, pid);
      && (forall i, j :: 0 <= i < j < |r| ==> r[i].id < r[j].id)
      && |r| <= |LinkedTagIds(s.links, pid)|
  {
    var linked := LinkedTags(s.tags, s.links, pid);
    var r := TagsOf(s, pid);
    LinkedTagsUnique(s.tags, s.links, pid);
    SortByIdUnique(linked);
    StrictlyAscending(r);
    forall i | 0 <= i < |r| ensures r[i].id in LinkedTagIds(s.links, pid) {
      assert r[i] in r;
    }
    DistinctIdsBound(r, LinkedTagIds(s.links, pid));
  }

  predicate UniqueTagIds(ts: seq<Tag>)
  {
    forall i, j :: 0 <= i < j < |ts| ==> ts[i].id != ts[j].id
  }

  /** Ids never decrease along the rows. */
  predicate AscendingIds(ts: seq<Tag>)
  {
    forall i, j :: 0 <= i < j < |ts| ==> ts[i].id <= ts[j].id
  }

  /** The tag rows linked to `pid`, in table order. */
  function LinkedTags(ts: seq<Tag>, links: seq<Link>, pid: int): (r: seq<Tag>)
    ensures forall t :: t in r <==> t in ts && Link(pid, t.id) in links
  {
    if |ts| == 0 then []
    else (if Link(pid, ts[0].id) in links then [ts[0]] else []) + LinkedTags(ts[1..], links, pid)
  }

  /** Keeping some of the rows keeps their ids unique. */
  lemma {:induction false} LinkedTagsUnique(ts: seq<Tag>, links: seq<Link>, pid: int)
    requires UniqueTagIds(ts)
    ensures UniqueTagIds(LinkedTags(ts, links, pid))
  {
    if |ts| > 0 {
      var rest := LinkedTags(ts[1..], links, pid);
      LinkedTagsUnique(ts[1..], links, pid);
      forall t | t in rest ensures t.id != ts[0].id {
        var k :| 0 <= k < |ts[1..]| && ts[1..][k] == t;
        assert ts[k + 1] == t;
      }
    }
  }

  /** Sequences with the same multiset hold the same rows. */
  lemma SameRows(a: seq<Tag>, b: seq<Tag>)
    requires multiset(a) == multiset(b)
    ensures forall t :: t in a <==> t in b
  {
    forall t ensures t in a <==> t in b {
      assert t in a <==> t in multiset(a);
      assert t in b <==> t in multiset(b);
    }
  }

  /** Puts a row in front of the first row with an id at least its own. */
  function InsertById(t: Tag, ts: seq<Tag>): (r: seq<Tag>)
    requires AscendingIds(ts)
    ensures AscendingIds(r)
    ensures multiset(r) == multiset(ts) + multiset{t}
  {
    if |ts| == 0 then [t]
    else if t.id <= ts[0].id then [t] + ts
    else
      var rest := InsertById(t, ts[1..]);
      InsertAfterHead(t, ts, rest);
      [ts[0]] + rest
  }

  /** The head of ascending rows goes in front of the rest with `t` put in. */
  lemma InsertAfterHead(t: Tag, ts: seq<Tag>, rest: seq<Tag>)
    requires |ts| > 0 && AscendingIds(ts) && ts[0].id < t.id
    requires AscendingIds(rest) && multiset(rest) == multiset(ts[1..]) + multiset{t}
    ensures AscendingIds([ts[0]] + rest)
    ensures multiset([ts[0]] + rest) == multiset(ts) + multiset{t}
  {
    assert ts == [ts[0]] + ts[1..];
    forall x | x in rest ensures ts[0].id <= x.id {
      assert x in multiset(rest);
    }
    var r := [ts[0]] + rest;
    forall i, j | 0 <= i < j < |r| ensures r[i].id <= r[j].id {
      assert r[j] == rest[j - 1] && r[j] in rest;
      if i > 0 { assert r[i] == rest[i - 1]; }
    }
  }

  /** Insertion sort by id: a permutation of the rows with ids ascending. */
  function SortById(ts: seq<Tag>): (r: seq<Tag>)
    ensures AscendingIds(r)
    ensures multiset(r) == multiset(ts)
  {
    if |ts| == 0 then []
    else
      assert ts == [ts[0]] + ts[1..];
      InsertById(ts[0], SortById(ts[1..]))
  }

  /** Sorting keeps ids unique. */
  lemma SortByIdUnique(ts: seq<Tag>)
    requires UniqueTagIds(ts)
    ensures UniqueTagIds(SortById(ts))
  {
    var r := SortById(ts);
    forall i, j | 0 <= i < j < |r| ensures r[i].id != r[j].id {
      if r[i].id == r[j].id {
        assert r[i] in multiset(ts) && r[j] in multiset(ts);
        var a :| 0 <= a < |ts| && ts[a] == r[i];
        var b :| 0 <= b < |ts| && ts[b] == r[j];
        assert a == b;
        TwiceInMultiset(r, i, j);
        OnceInMultiset(ts, a);
        assert false;
      }
    }
  }

  /** A value at two positions is counted twice. */
  lemma TwiceInMultiset(r: seq<Tag>, i: int, j: int)
    requires 0 <= i < j < |r| && r[i] == r[j]
    ensures multiset(r)[r[i]] >= 2
  {
    assert r == r[..j] + r[j..];
    assert r[i] in r[..j];
    assert r[j] in r[j..];
    assert multiset(r) == multiset(r[..j]) + multiset(r[j..]);
  }

  /** With unique ids, every row is counted once. */
  lemma {:induction false} OnceInMultiset(ts: seq<Tag>, a: int)
    requires UniqueTagIds(ts) && 0 <= a < |ts|
    ensures multiset(ts)[ts[a]] == 1
  {
    assert ts == [ts[0]] + ts[1..];
    if a == 0 {
      assert ts[0] !in ts[1..];
    } else {
      OnceInMultiset(ts[1..], a - 1);
      assert ts[1..][a - 1] == ts[a];
    }
  }

  /** Ascending and unique ids are strictly ascending. */
  lemma StrictlyAscending(r: seq<Tag>)
    requires AscendingIds(r) && UniqueTagIds(r)
    ensures forall i, j :: 0 <= i < j < |r| ==> r[i].id < r[j].id
  {
  }

  /** Rows with distinct ids, each found in `ids`, are no more than `ids`. */
  lemma {:induction false} DistinctIdsBound(r: seq<Tag>, ids: seq<int>)
    requires UniqueTagIds(r)
    requires forall i :: 0 <= i < |r| ==> r[i].id in ids
    ensures |r| <= |ids|
  {
    if |r| > 0 {
      var k :| 0 <= k < |ids| && ids[k] == r[0].id;
      var rest := ids[..k] + ids[k + 1..];
      forall i | 0 <= i < |r[1..]| ensures r[1..][i].id in rest {
        assert r[1..][i] == r[i + 1] && r[i + 1].id != r[0].id;
        var m :| 0 <= m < |ids| && ids[m] == r[i + 1].id;
        if m < k { assert rest[m] == ids[m]; } else { assert rest[m - 1] == ids[m]; }
      }
      DistinctIdsBound(r[1..], rest);
    }
  }

  /** The names of tag rows, in order. */
  function Names(ts: seq<Tag>): (r: seq<string>)
    ensures |r| == |ts| && forall i :: 0 <= i < |ts| ==> r[i] == ts[i].name
  {
    seq(|ts|, i requires 0 <= i < |ts| => ts[i].name)
  }

  /** The join table without the rows of problem `pid` (Association Clear). */
  function Unlink(links: seq<Link>, pid: int): (r: seq<Link>)
    ensures forall l :: l in r <==> l in links && l.problemId != pid
    ensures |r| <= |links|
  {
    if |links| == 0 then []
    else (if links[0].problemId == pid then [] else [links[0]]) + Unlink(links[1..], pid)
  }

  /** Inserting join rows for `pid` and each of `tids` in order; a row that
      already exists is skipped (ON CONFLICT DO NOTHING). */
  function LinkAll(links: seq<Link>, pid: int, tids: seq<int>): (r: seq<Link>)
    ensures forall l :: l in r <==> l in links || (l.problemId == pid && l.tagId in tids)
    ensures |links| <= |r| && r[..|links|] == links
    decreases |tids|
  {
    if |tids| == 0 then links
    else
      var l := Link(pid, tids[0]);
      LinkAll(if l in links then links else links + [l], pid, tids[1..])
  }

  predicate Distinct<T(==)>(xs: seq<T>)
  {
    forall k, m :: 0 <= k < m < |xs| ==> xs[k] != xs[m]
  }

  /** The join table never holds a row twice: inserting skips rows already
      present. */
  lemma {:induction false} LinkAllDistinct(links: seq<Link>, pid: int, tids: seq<int>)
    requires Distinct(links)
    ensures Distinct(LinkAll(links, pid, tids))
    decreases |tids|
  {
    if |tids| > 0 {
      var l := Link(pid, tids[0]);
      var next := if l in links then links else links + [l];
      assert Distinct(next);
      LinkAllDistinct(next, pid, tids[1..]);
    }
  }

  lemma {:induction false} UnlinkDistinct(links: seq<Link>, pid: int)
    requires Distinct(links)
    ensures Distinct(Unlink(links, pid))
  {
    if |links| > 0 {
      UnlinkDistinct(links[1..], pid);
      assert links[0] !in links[1..];
    }
  }

  /** Inserting join rows only ever appends rows of that problem. */
  lemma {:induction false} LinkAllAppendsOwnRows(links: seq<Link>, pid: int, tids: seq<int>)
    ensures forall k :: |links| <= k < |LinkAll(links, pid, tids)| ==> LinkAll(links, pid, tids)[k].problemId == pid
    decreases |tids|
  {
    if |tids| > 0 {
      var l := Link(pid, tids[0]);
      var next := if l in links then links else links + [l];
      LinkAllAppendsOwnRows(next, pid, tids[1..]);
      var r := LinkAll(links, pid, tids);
      assert r[..|next|] == next;
      forall k | |links| <= k < |r| ensures r[k].problemId == pid {
        if k < |next| { assert r[k] == next[k]; }
      }
    }
  }

  lemma {:induction false} UnlinkAppend(a: seq<Link>, b: seq<Link>, pid: int)
    ensures Unlink(a + b, pid) == Unlink(a, pid) + Unlink(b, pid)
  {
    if |a| > 0 {
      var head := if a[0].problemId == pid then [] else [a[0]];
      calc {
        Unlink(a + b, pid);
        == { assert (a + b)[0] == a[0] && (a + b)[1..] == a[1..] + b; }
        head + Unlink(a[1..] + b, pid);
        == { UnlinkAppend(a[1..], b, pid); }
        head + (Unlink(a[1..], pid) + Unlink(b, pid));
        ==
        (head + Unlink(a[1..], pid)) + Unlink(b, pid);
      }
    } else {
      assert a + b == b;
    }
  }

  lemma {:induction false} UnlinkAbsent(links: seq<Link>, pid: int)
    requires forall k :: 0 <= k < |links| ==> links[k].problemId != pid
    ensures Unlink(links, pid) == links
  {
    if |links| > 0 {
      UnlinkAbsent(links[1..], pid);
    }
  }

  lemma {:induction false} UnlinkOwn(links: seq<Link>, pid: int)
    requires forall k :: 0 <= k < |links| ==> links[k].problemId == pid
    ensures Unlink(links, pid) == []
  {
    if |links| > 0 {
      UnlinkOwn(links[1..], pid);
    }
  }

  /** Clearing a problem's links undoes inserting them, when it had none
      before. */
  lemma UnlinkUndoesLinkAll(links: seq<Link>, pid: int, tids: seq<int>)
    requires forall k :: 0 <= k < |links| ==> links[k].problemId != pid
    ensures Unlink(LinkAll(links, pid, tids), pid) == links
  {
    var r := LinkAll(links, pid, tids);
    LinkAllAppendsOwnRows(links, pid, tids);
    assert r == links + r[|links|..];
    UnlinkAppend(links, r[|links|..], pid);
    UnlinkAbsent(links, pid);
    UnlinkOwn(r[|links|..], pid);
  }

  // ---------------------------------------------------------------------
  // The invariant
  // ---------------------------------------------------------------------

  function ProblemIdSet(ps: seq<Problem>): set<int>
  {
    set i | 0 <= i < |ps| :: ps[i].id
  }

  /** The id of a new problem is one more than an id in use, unless the
      table is empty. */
  lemma NextProblemId(ps: seq<Problem>)
    ensures |ps| > 0 ==> NextId(ProblemIds(ps)) - 1 in ProblemIdSet(ps)
  {
    if |ps| > 0 {
      var k :| 0 <= k < |ps| && ProblemIds(ps)[k] == NextId(ProblemIds(ps)) - 1;
      assert ps[k].id == NextId(ProblemIds(ps)) - 1;
    }
  }

  function TagIdSet(ts: seq<Tag>): set<int>
  {
    set i | 0 <= i < |ts| :: ts[i].id
  }

  /** Tag ids are unique and so are tag names. */
  predicate TagTableOk(ts: seq<Tag>)
  {
    forall i, j :: 0 <= i < j < |ts| ==> ts[i].id != ts[j].id && ts[i].name != ts[j].name
  }

  /** A stored problem: positive id, slug derived from id and title, and a
      lowercase difficulty name. */
  predicate ProblemOk(rt: Runes, p: Problem)
  {
    p.id > 0 && p.slug == Slug.SetSlug(rt, p.id, p.title) && p.difficulty in Levels
  }

  predicate LinksOk(s: Store)
  {
    && (forall k :: 0 <= k < |s.links| ==> s.links[k].problemId in ProblemIdSet(s.problems) && s.links[k].tagId in TagIdSet(s.tags))
    && Distinct(s.links)
  }

  /** Every row is a consistent problem. Stated by recursion over the
      rows, so that the slug derivation is unfolded only for the rows a
      proof asks about (RowsOkAt). */
  predicate RowsOk(rt: Runes, ps: seq<Problem>)
  {
    |ps| == 0 || (ProblemOk(rt, ps[0]) && RowsOk(rt, ps[1..]))
  }

  predicate UniqueIds(ps: seq<Problem>)
  {
    forall i, j :: 0 <= i < j < |ps| ==> ps[i].id != ps[j].id
  }

  predicate StoreOk(rt: Runes, s: Store)
  {
    && UniqueIds(s.problems)
    && RowsOk(rt, s.problems)
    && TagTableOk(s.tags)
    && LinksOk(s)
  }

  lemma {:induction false} RowsOkAt(rt: Runes, ps: seq<Problem>, i: int)
    requires RowsOk(rt, ps) && 0 <= i < |ps|
    ensures ProblemOk(rt, ps[i])
  {
    if i > 0 {
      RowsOkAt(rt, ps[1..], i - 1);
    }
  }

  /** RowsOk holds of the rows exactly when each row is consistent. */
  lemma {:induction false} RowsOkEach(rt: Runes, ps: seq<Problem>)
    requires forall i :: 0 <= i < |ps| ==> ProblemOk(rt, ps[i])
    ensures RowsOk(rt, ps)
  {
    if |ps| > 0 {
      RowsOkEach(rt, ps[1..]);
    }
  }

  lemma {:induction false} RowsOkAppend(rt: Runes, ps: seq<Problem>, q: Problem)
    requires RowsOk(rt, ps) && ProblemOk(rt, q)
    ensures RowsOk(rt, ps + [q])
  {
    if |ps| > 0 {
      assert (ps + [q])[1..] == ps[1..] + [q];
      RowsOkAppend(rt, ps[1..], q);
    } else {
      assert (ps + [q])[1..] == [];
    }
  }

  lemma {:induction false} RowsOkUpdate(rt: Runes, ps: seq<Problem>, i: int, q: Problem)
    requires RowsOk(rt, ps) && 0 <= i < |ps| && ProblemOk(rt, q)
    ensures RowsOk(rt, ps[i := q])
  {
    if i > 0 {
      assert ps[i := q][1..] == ps[1..][i - 1 := q];
      RowsOkUpdate(rt, ps[1..], i - 1, q);
    } else {
      assert ps[i := q][1..] == ps[1..];
    }
  }

  lemma {:induction false} RowsOkRemove(rt: Runes, ps: seq<Problem>, i: int)
    requires RowsOk(rt, ps) && 0 <= i < |ps|
    ensures RowsOk(rt, ps[..i] + ps[i + 1..])
  {
    if i > 0 {
      assert (ps[..i] + ps[i + 1..])[1..] == ps[1..][..i - 1] + ps[1..][i..];
      assert (ps[..i] + ps[i + 1..])[0] == ps[0];
      RowsOkRemove(rt, ps[1..], i - 1);
    } else {
      assert ps[..i] + ps[i + 1..] == ps[1..];
    }
  }

  /** In a consistent store no two problems share a slug, which is what the
      unique index on slug demands. */
  lemma SlugsUnique(rt: Runes, s: Store)
    requires StoreOk(rt, s)
    ensures forall i, j :: 0 <= i < j < |s.problems| ==> s.problems[i].slug != s.problems[j].slug
  {
    forall i, j | 0 <= i < j < |s.problems|
      ensures s.problems[i].slug != s.problems[j].slug
    {
      var p, q := s.problems[i], s.problems[j];
      RowsOkAt(rt, s.problems, i);
      RowsOkAt(rt, s.problems, j);
      Slug.SlugsOfDistinctIdsDiffer(rt, p.id, p.title, q.id, q.title);
    }
  }

  /** Replacing a problem's join rows by rows to existing tags keeps the
      join table consistent. */
  lemma RelinkKeepsLinks(ps: seq<Problem>, ts: seq<Tag>, links: seq<Link>, pid: int, tids: seq<int>)
    requires LinksOk(Store(ps, ts, links)) && pid in ProblemIdSet(ps)
    requires forall j :: 0 <= j < |tids| ==> tids[j] in TagIdSet(ts)
    ensures LinksOk(Store(ps, ts, LinkAll(Unlink(links, pid), pid, tids)))
  {
    UnlinkDistinct(links, pid);
    LinkAllDistinct(Unlink(links, pid), pid, tids);
    var links' := LinkAll(Unlink(links, pid), pid, tids);
    forall k | 0 <= k < |links'|
      ensures links'[k].problemId in ProblemIdSet(ps) && links'[k].tagId in TagIdSet(ts)
    {
      var l := links'[k];
      assert l in links';
      if l !in links {
        var j :| 0 <= j < |tids| && tids[j] == l.tagId;
      } else {
        var m :| 0 <= m < |links| && links[m] == l;
      }
    }
  }

  /** A slug built from an id no other row has cannot clash with another
      row's slug: the unique index on slug is never violated by a row whose
      slug follows its id. */
  lemma SlugOfOtherId(rt: Runes, s: Store, id: int, title: string)
    requires StoreOk(rt, s) && id >= 0
    ensures forall i :: 0 <= i < |s.problems| && s.problems[i].id != id ==> s.problems[i].slug != Slug.SetSlug(rt, id, title)
  {
    forall i | 0 <= i < |s.problems| && s.problems[i].id != id
      ensures s.problems[i].slug != Slug.SetSlug(rt, id, title)
    {
      var p := s.problems[i];
      RowsOkAt(rt, s.problems, i);
      Slug.SlugsOfDistinctIdsDiffer(rt, p.id, p.title, id, title);
    }
  }

  lemma ProblemIdSetAppend(ps: seq<Problem>, q: Problem)
    ensures ProblemIdSet(ps + [q]) == ProblemIdSet(ps) + {q.id}
  {
    var l := ProblemIdSet(ps + [q]);
    forall x | x in ProblemIdSet(ps) ensures x in l {
      var i :| 0 <= i < |ps| && ps[i].id == x;
      assert (ps + [q])[i].id == x;
    }
    assert (ps + [q])[|ps|].id == q.id;
  }

  lemma TagIdSetGrows(ts: seq<Tag>, ts': seq<Tag>)
    requires |ts| <= |ts'| && ts'[..|ts|] == ts
    ensures TagIdSet(ts) <= TagIdSet(ts')
  {
    forall x | x in TagIdSet(ts) ensures x in TagIdSet(ts') {
      var i :| 0 <= i < |ts| && ts[i].id == x;
      assert ts'[i] == ts[i];
    }
  }
}
