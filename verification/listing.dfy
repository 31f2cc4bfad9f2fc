/** `algo list` (cmd/list.go): paging validation, the AND of the optional
    filters, newest-first order, offset and limit, and the display of a
    problem's tag names. */
module Listing {
  import opened Wrappers
  import opened Text
  import opened Numbers
  import opened Model
  import opened Store
  import Add

  /** The defaults of the --limit and --offset flags. */
  const DefaultLimit: int := 100
  const DefaultOffset: int := 0

  /** The largest page the command accepts. */
  const MaxLimit: int := 100

  /** The flags of `list`; an empty string means "no such filter". */
  datatype Query = Query(title: string, difficulty: string, tags: string, score: string, limit: int, offset: int)

  /** The query when no flag is given. */
  const NoFilter: Query := Query("", "", "", "", DefaultLimit, DefaultOffset)

  /** A listed problem with its preloaded tags. */
  datatype Entry = Entry(problem: Problem, tags: seq<Tag>)

  // ---------------------------------------------------------------------
  // Filters
  // ---------------------------------------------------------------------

  /** title LIKE %keyword%, read as substring containment. */
  predicate TitleMatches(p: Problem, keyword: string)
  {
    keyword == "" || Contains(p.title, keyword)
  }

  /** difficulty = the normalised filter value ("" for no filter). */
  predicate DifficultyMatches(p: Problem, diff: string)
  {
    diff == "" || p.difficulty == diff
  }

  /** The tag filter: the list is split on commas as typed (no trimming, no
      lowercasing) and a problem matches when one of its tags has one of
      those names. */
  predicate TagsMatch(s: Store, p: Problem, list: string)
  {
    list == "" || exists t :: t in TagsOf(s, p.id) && t.name in Split(list, ',')
  }

  /** score = the given text, compared as a number with the stored score;
      a problem without a score never matches. */
  predicate ScoreMatches(p: Problem, text: string)
  {
    text == "" || (p.score.Some? && Atoi(text) == Ok(p.score.value))
  }

  predicate Matches(s: Store, q: Query, diff: string, p: Problem)
  {
    TitleMatches(p, q.title) && DifficultyMatches(p, diff) && TagsMatch(s, p, q.tags) && ScoreMatches(p, q.score)
  }

  /** The WHERE clauses: the matching rows in table order. */
  function Select(s: Store, q: Query, diff: string, ps: seq<Problem>): (r: seq<Problem>)
    ensures forall p :: p in r <==> p in ps && Matches(s, q, diff, p)
    ensures |r| <= |ps|
  {
    if |ps| == 0 then []
    else (if Matches(s, q, diff, ps[0]) then [ps[0]] else []) + Select(s, q, diff, ps[1..])
  }

  // ---------------------------------------------------------------------
  // ORDER BY created_at DESC
  // ---------------------------------------------------------------------

  function Created(p: Problem): int
  {
    p.createdAt.Instant()
  }

  predicate NewestFirst(ps: seq<Problem>)
  {
    forall i, j :: 0 <= i < j < |ps| ==> Created(ps[i]) >= Created(ps[j])
  }

  lemma NewestFirstCons(x: Problem, rest: seq<Problem>)
    requires NewestFirst(rest)
    requires forall y :: y in rest ==> Created(x) >= Created(y)
    ensures NewestFirst([x] + rest)
  {
    forall i, j | 0 <= i < j < |rest| + 1 ensures Created(([x] + rest)[i]) >= Created(([x] + rest)[j]) {
      assert ([x] + rest)[j] == rest[j - 1] && rest[j - 1] in rest;
      if i > 0 { assert ([x] + rest)[i] == rest[i - 1]; }
    }
  }

  /** Places `p` before the first row that is not newer than it. */
  function InsertByTime(p: Problem, xs: seq<Problem>): (r: seq<Problem>)
    requires NewestFirst(xs)
    ensures NewestFirst(r)
    ensures multiset(r) == multiset(xs) + multiset{p}
    ensures forall y :: y in r ==> y == p || y in xs
  {
    if |xs| == 0 || Created(xs[0]) <= Created(p) then
      NewestFirstCons(p, xs);
      [p] + xs
    else
      var rest := InsertByTime(p, xs[1..]);
      assert xs == [xs[0]] + xs[1..];
      assert forall y :: y in rest ==> Created(xs[0]) >= Created(y) by {
        forall y | y in rest ensures Created(xs[0]) >= Created(y) {
          if y != p {
            var k :| 0 <= k < |xs[1..]| && xs[1..][k] == y;
            assert xs[k + 1] == y;
          }
        }
      }
      NewestFirstCons(xs[0], rest);
      [xs[0]] + rest
  }

  /** The rows newest first; rows created at the same instant keep table
      order. */
  function SortNewest(ps: seq<Problem>): (r: seq<Problem>)
    ensures NewestFirst(r)
    ensures multiset(r) == multiset(ps)
  {
    if |ps| == 0 then []
    else
      assert ps == [ps[0]] + ps[1..];
      InsertByTime(ps[0], SortNewest(ps[1..]))
  }

  // ---------------------------------------------------------------------
  // OFFSET / LIMIT
  // ---------------------------------------------------------------------

  function Min(a: int, b: int): int
  {
    if a <= b then a else b
  }

  /** Skip `offset` rows, then keep at most `limit`. */
  function Page<T>(xs: seq<T>, offset: nat, limit: nat): (r: seq<T>)
    ensures |r| == if offset >= |xs| then 0 else Min(limit, |xs| - offset)
    ensures forall i :: 0 <= i < |r| ==> r[i] == xs[offset + i]
  {
    if offset >= |xs| then [] else xs[offset..][..Min(limit, |xs| - offset)]
  }

  // ---------------------------------------------------------------------
  // listProblems
  // ---------------------------------------------------------------------

  /** The difficulty filter: none for "", else Valid's answer and value. */
  function DifficultyFilter(rt: Runes, d: string): (r: (bool, string))
    ensures r.0 <==> d == "" || LowerAll(rt.lower, d) in Levels
    ensures r.0 && d != "" ==> r.1 == LowerAll(rt.lower, d)
    ensures d == "" ==> r.1 == ""
  {
    if d == "" then (true, "") else Valid(rt.lower, d)
  }

  /** The filtering part of a query, with the paging cleared. */
  function Filters(q: Query): (r: Query)
    ensures r.title == q.title && r.difficulty == q.difficulty && r.tags == q.tags && r.score == q.score
  {
    q.(limit := 0, offset := 0)
  }

  /** All rows that pass the filters `f`, newest first, before paging. */
  function Matching(rt: Runes, f: Query, s: Store): seq<Problem>
  {
    SortNewest(Select(s, f, DifficultyFilter(rt, f.difficulty).1, s.problems))
  }

  /** The page of matching rows, newest first. */
  function Rows(rt: Runes, q: Query, s: Store): (r: seq<Problem>)
    requires q.offset >= 0 && q.limit >= 0
  {
    Page(Matching(rt, Filters(q), s), q.offset, q.limit)
  }

  /** Each row with its preloaded tags. */
  function Entries(s: Store, rows: seq<Problem>): (r: seq<Entry>)
    ensures |r| == |rows|
    ensures forall i :: 0 <= i < |rows| ==> r[i].problem == rows[i] && r[i].tags == TagsOf(s, rows[i].id)
  {
    seq(|rows|, i requires 0 <= i < |rows| => Entry(rows[i], TagsOf(s, rows[i].id)))
  }

  /** listProblems: a negative limit or offset or a limit above 100 is
      refused, then a difficulty filter that is not a level; otherwise the
      matching rows, newest first, from `offset` on and at most `limit` of
      them, each with its tags by ascending id. */
  function ListProblems(rt: Runes, q: Query, s: Store): (r: Result<seq<Entry>, Error>)
    ensures r == Err(InvalidPaging) <==> q.limit < 0 || q.offset < 0 || q.limit > 100
    ensures r.Err? <==> q.limit < 0 || q.offset < 0 || q.limit > 100
                        || (q.difficulty != "" && LowerAll(rt.lower, q.difficulty) !in Levels)
    ensures r.Ok? ==> |r.value| <= q.limit
    ensures r.Ok? ==> forall i :: 0 <= i < |r.value| ==> r.value[i].tags == TagsOf(s, r.value[i].problem.id)
    ensures r.Ok? ==> forall i :: 0 <= i < |r.value| ==> AscendingIds(r.value[i].tags)
  {
    if q.limit < 0 || q.offset < 0 || q.limit > MaxLimit then Err(InvalidPaging)
    else if !DifficultyFilter(rt, q.difficulty).0 then Err(InvalidDifficulty(q.difficulty))
    else Ok(Entries(s, Rows(rt, q, s)))
  }

  /** The problems of a listing, in order. */
  function Problems(es: seq<Entry>): (r: seq<Problem>)
    ensures |r| == |es| && forall i :: 0 <= i < |es| ==> r[i] == es[i].problem
  {
    seq(|es|, i requires 0 <= i < |es| => es[i].problem)
  }

  // ---------------------------------------------------------------------
  // getTagNames
  // ---------------------------------------------------------------------

  /** getTagNames: the names in order, separated by ", ". */
  function TagNames(ts: seq<Tag>): (r: string)
    ensures |ts| == 0 ==> r == ""
    ensures |ts| == 1 ==> r == ts[0].name
  {
    Join(Names(ts), ", ")
  }

  // ---------------------------------------------------------------------
  // Properties
  // ---------------------------------------------------------------------

  /** The filters of a query, stated on the flags as typed and on the
      tables as the SQL joins read them: a title keyword the title contains,
      the difficulty in lowercase, a tag row joined to the problem through
      problem_tags whose name is in the comma list, and the score the text
      reads as. */
  predicate Passes(rt: Runes, q: Query, s: Store, p: Problem)
  {
    && (q.title != "" ==> Contains(p.title, q.title))
    && (q.difficulty != "" ==> p.difficulty == LowerAll(rt.lower, q.difficulty))
    && (q.tags != "" ==> exists t :: t in s.tags && Link(p.id, t.id) in s.links && t.name in Split(q.tags, ','))
    && (q.score != "" ==> p.score.Some? && Atoi(q.score) == Ok(p.score.value))
  }

  /** With an accepted difficulty filter, the WHERE clauses keep exactly
      the problems that pass the query's filters: the preloaded tags of a
      problem are its joined tag rows. */
  lemma MatchesQuery(rt: Runes, q: Query, s: Store, p: Problem)
    requires DifficultyFilter(rt, q.difficulty).0
    ensures Matches(s, Filters(q), DifficultyFilter(rt, q.difficulty).1, p) ==> Passes(rt, q, s, p)
    ensures Passes(rt, q, s, p) ==> Matches(s, Filters(q), DifficultyFilter(rt, q.difficulty).1, p)
  {
    if q.tags != "" && Matches(s, Filters(q), DifficultyFilter(rt, q.difficulty).1, p) {
      var t :| t in TagsOf(s, p.id) && t.name in Split(q.tags, ',');
      var k :| 0 <= k < |TagsOf(s, p.id)| && TagsOf(s, p.id)[k] == t;
    }
  }

  /** The matching rows are newest first and are exactly the stored rows
      that pass the filters. */
  lemma MatchingHolds(rt: Runes, f: Query, s: Store)
    ensures NewestFirst(Matching(rt, f, s))
    ensures forall p :: p in Matching(rt, f, s) <==> p in s.problems && Matches(s, f, DifficultyFilter(rt, f.difficulty).1, p)
    ensures |Matching(rt, f, s)| <= |s.problems|
  {
    var sel := Select(s, f, DifficultyFilter(rt, f.difficulty).1, s.problems);
    var m := Matching(rt, f, s);
    assert multiset(m) == multiset(sel);
    assert |m| == |multiset(m)| == |multiset(sel)| == |sel|;
    forall p ensures p in m <==> p in sel {
      assert p in m <==> p in multiset(m);
      assert p in sel <==> p in multiset(sel);
    }
  }

  /** Every listed problem is a row of the store that passes every filter
      that was given. */
  lemma ListedRowsMatch(rt: Runes, q: Query, s: Store)
    requires ListProblems(rt, q, s).Ok?
    ensures var es := ListProblems(rt, q, s).value;
      forall i :: 0 <= i < |es| ==> es[i].problem in s.problems && Passes(rt, q, s, es[i].problem)
  {
    ListValue(rt, q, s);
    var m := Matching(rt, Filters(q), s);
    MatchingHolds(rt, Filters(q), s);
    var rows := Rows(rt, q, s);
    var es := ListProblems(rt, q, s).value;
    forall i | 0 <= i < |es| ensures es[i].problem in s.problems && Passes(rt, q, s, es[i].problem) {
      assert es[i].problem == rows[i] == m[q.offset + i];
      assert m[q.offset + i] in m;
      MatchesQuery(rt, q, s, rows[i]);
    }
  }

  /** What a successful listing holds. */
  lemma ListValue(rt: Runes, q: Query, s: Store)
    requires ListProblems(rt, q, s).Ok?
    ensures q.offset >= 0 && q.limit >= 0
    ensures ListProblems(rt, q, s).value == Entries(s, Rows(rt, q, s))
  {
  }

  /** The listing is newest first. */
  lemma ListNewestFirst(rt: Runes, q: Query, s: Store)
    requires ListProblems(rt, q, s).Ok?
    ensures var es := ListProblems(rt, q, s).value;
      forall i, j :: 0 <= i < j < |es| ==> Created(es[i].problem) >= Created(es[j].problem)
  {
    ListValue(rt, q, s);
    PageNewestFirst(Matching(rt, Filters(q), s), q.offset, q.limit);
    var rows := Rows(rt, q, s);
    var es := ListProblems(rt, q, s).value;
    forall i, j | 0 <= i < j < |es| ensures Created(es[i].problem) >= Created(es[j].problem) {
      assert es[i].problem == rows[i] && es[j].problem == rows[j];
    }
  }

  /** A page of a newest-first sequence is newest first. */
  lemma PageNewestFirst(xs: seq<Problem>, offset: nat, limit: nat)
    requires NewestFirst(xs)
    ensures NewestFirst(Page(xs, offset, limit))
  {
    var r := Page(xs, offset, limit);
    forall i, j | 0 <= i < j < |r| ensures Created(r[i]) >= Created(r[j]) {
      assert r[i] == xs[offset + i] && r[j] == xs[offset + j];
    }
  }

  /** From the first row on, a page at least as large as the table lists
      every problem that passes the filters. */
  lemma ListIsComplete(rt: Runes, q: Query, s: Store, p: Problem)
    requires ListProblems(rt, q, s).Ok?
    requires q.offset == 0 && |s.problems| <= q.limit
    requires p in s.problems && Passes(rt, q, s, p)
    ensures p in Problems(ListProblems(rt, q, s).value)
  {
    ListValue(rt, q, s);
    var m := Matching(rt, Filters(q), s);
    MatchingHolds(rt, Filters(q), s);
    MatchesQuery(rt, q, s, p);
    assert p in m;
    var k :| 0 <= k < |m| && m[k] == p;
    var rows := Rows(rt, q, s);
    assert |m| <= |s.problems|;
    assert rows[k] == p;
    assert Problems(Entries(s, rows))[k] == p;
  }

  lemma PageTile<T>(xs: seq<T>, o: nat, a: nat, b: nat)
    ensures Page(xs, o, a) + Page(xs, o + a, b) == Page(xs, o, a + b)
  {
    var l := Page(xs, o, a) + Page(xs, o + a, b);
    var r := Page(xs, o, a + b);
    assert |l| == |r|;
    forall i | 0 <= i < |r| ensures l[i] == r[i] {
      if i >= |Page(xs, o, a)| { assert l[i] == Page(xs, o + a, b)[i - |Page(xs, o, a)|]; }
    }
  }

  lemma {:induction false} EntriesAppend(s: Store, a: seq<Problem>, b: seq<Problem>)
    ensures Entries(s, a) + Entries(s, b) == Entries(s, a + b)
  {
    var ea, eb, eab := Entries(s, a), Entries(s, b), Entries(s, a + b);
    assert |ea + eb| == |eab|;
    forall i | 0 <= i < |eab| ensures (ea + eb)[i] == eab[i] {
      EntryAt(s, a, b, i);
    }
  }

  lemma EntryAt(s: Store, a: seq<Problem>, b: seq<Problem>, i: int)
    requires 0 <= i < |a| + |b|
    ensures (Entries(s, a) + Entries(s, b))[i] == Entries(s, a + b)[i]
  {
    var ea, eb := Entries(s, a), Entries(s, b);
    if i < |a| {
      assert (ea + eb)[i] == ea[i] && (a + b)[i] == a[i];
    } else {
      assert (ea + eb)[i] == eb[i - |a|] && (a + b)[i] == b[i - |a|];
    }
  }

  lemma RowsTile(rt: Runes, q: Query, s: Store, a: nat, b: nat)
    requires q.offset >= 0
    ensures Rows(rt, q.(limit := a), s) + Rows(rt, q.(limit := b, offset := q.offset + a), s) == Rows(rt, q.(limit := a + b), s)
  {
    var sorted := Matching(rt, Filters(q), s);
    assert Filters(q.(limit := a)) == Filters(q);
    assert Filters(q.(limit := b, offset := q.offset + a)) == Filters(q);
    assert Filters(q.(limit := a + b)) == Filters(q);
    PageTile(sorted, q.offset, a, b);
  }

  /** Consecutive pages of the same query tile the larger page that spans
      them. */
  lemma PagesTile(rt: Runes, q: Query, s: Store, a: nat, b: nat)
    requires q.offset >= 0 && a + b <= MaxLimit
    ensures var first := ListProblems(rt, q.(limit := a), s);
      var second := ListProblems(rt, q.(limit := b, offset := q.offset + a), s);
      var both := ListProblems(rt, q.(limit := a + b), s);
      first.Ok? == both.Ok? && second.Ok? == both.Ok? &&
      (both.Ok? ==> first.value + second.value == both.value)
  {
    var q1 := q.(limit := a);
    var q2 := q.(limit := b, offset := q.offset + a);
    var q3 := q.(limit := a + b);
    if ListProblems(rt, q3, s).Ok? {
      ListValue(rt, q1, s);
      ListValue(rt, q2, s);
      ListValue(rt, q3, s);
      RowsTile(rt, q, s, a, b);
      EntriesAppend(s, Rows(rt, q1, s), Rows(rt, q2, s));
    }
  }

  lemma {:induction false} SelectIgnoresPaging(s: Store, q: Query, q': Query, diff: string, ps: seq<Problem>)
    requires q'.title == q.title && q'.tags == q.tags && q'.score == q.score
    ensures Select(s, q', diff, ps) == Select(s, q, diff, ps)
  {
    if |ps| > 0 {
      SelectIgnoresPaging(s, q, q', diff, ps[1..]);
    }
  }

  /** Extending a filter-free query with the selects of the filters never
      adds rows: the filters combine with AND. */
  lemma FilterNarrows(s: Store, q: Query, diff: string, p: Problem)
    ensures Matches(s, q, diff, p) ==> Matches(s, q.(title := ""), diff, p)
    ensures Matches(s, q, diff, p) ==> Matches(s, q.(tags := ""), diff, p)
    ensures Matches(s, q, diff, p) ==> Matches(s, q.(score := ""), diff, p)
    ensures Matches(s, q, diff, p) ==> Matches(s, q, "", p)
    ensures Matches(s, NoFilter, "", p)
  {
  }

  lemma {:induction false} NormalizeLeadingSpace(lower: char -> char, lead: string, n: string)
    requires lead == "" || lead == " "
    requires Add.TagName(lower, n)
    ensures TrimSpace(lead + n) == n
  {
    if lead == " " {
      assert (lead + n)[1..] == n;
      assert TrimLeft(lead + n, Spaces) == TrimLeft(n, Spaces);
    } else {
      assert lead + n == n;
    }
  }

  lemma NormalizeBlankLead(lower: char -> char, lead: string)
    requires lead == "" || lead == " "
    ensures Add.NormalizeTags(lower, lead) == []
  {
    SplitFreePrefix(lead, "", ',');
    assert lead + "" == lead;
    assert TrimSpace(lead) == "" by {
      if lead == " " {
        assert lead[0] in Spaces && lead[1..] == "";
        assert TrimLeft(lead, Spaces) == TrimLeft("", Spaces);
      }
    }
  }

  /** The pieces a ", "-joined list splits into on ',': every name but
      the first carries the space that followed its comma. */
  function Spaced(lead: string, names: seq<string>): (r: seq<string>)
    ensures |r| == |names|
    decreases |names|
  {
    if |names| == 0 then [] else [lead + names[0]] + Spaced(" ", names[1..])
  }

  lemma {:induction false} SplitSpacedJoin(lead: string, names: seq<string>)
    requires |names| >= 1 && ',' !in lead
    requires forall i :: 0 <= i < |names| ==> ',' !in names[i]
    ensures Split(lead + Join(names, ", "), ',') == Spaced(lead, names)
    decreases |names|
  {
    var n := names[0];
    if |names| == 1 {
      SplitFreePrefix(lead + n, "", ',');
      assert lead + n + "" == lead + n;
    } else {
      var tail := Join(names[1..], ", ");
      SplitSpacedJoin(" ", names[1..]);
      assert lead + Join(names, ", ") == (lead + n) + ([','] + (" " + tail)) by {
        JoinCons(n, names[1..], ", ");
        assert [n] + names[1..] == names;
      }
      SplitFreePrefix(lead + n, [','] + (" " + tail), ',');
      assert ([','] + (" " + tail))[1..] == " " + tail;
      assert Split([','] + (" " + tail), ',') == [""] + Split(" " + tail, ',');
      assert lead + n + "" == lead + n;
    }
  }

  lemma {:induction false} NormalizeSpaced(lower: char -> char, lead: string, names: seq<string>)
    requires lead == "" || lead == " "
    requires forall i :: 0 <= i < |names| ==> Add.TagName(lower, names[i])
    ensures Add.NormalizePieces(lower, Spaced(lead, names)) == names
    decreases |names|
  {
    if |names| > 0 {
      NormalizeSpaced(lower, " ", names[1..]);
      NormalizeLeadingSpace(lower, lead, names[0]);
      assert Spaced(lead, names)[1..] == Spaced(" ", names[1..]);
      assert names == [names[0]] + names[1..];
    }
  }

  lemma NormalizeSpacedJoin(lower: char -> char, names: seq<string>)
    requires forall i :: 0 <= i < |names| ==> Add.TagName(lower, names[i])
    ensures Add.NormalizeTags(lower, Join(names, ", ")) == names
  {
    if |names| == 0 {
      NormalizeBlankLead(lower, "");
    } else {
      SplitSpacedJoin("", names);
      assert "" + Join(names, ", ") == Join(names, ", ");
      NormalizeSpaced(lower, "", names);
    }
  }

  /** The displayed tag list read back as a tag list (as `add -g` or
      `edit -g` would) names the same tags. */
  lemma TagNamesRoundTrip(lower: char -> char, ts: seq<Tag>)
    requires forall i :: 0 <= i < |ts| ==> Add.TagName(lower, ts[i].name)
    ensures Add.NormalizeTags(lower, TagNames(ts)) == Names(ts)
  {
    NormalizeSpacedJoin(lower, Names(ts));
  }
}
