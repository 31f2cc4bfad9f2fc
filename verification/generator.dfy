/** The problem document (internal/generator/generator.go): the pongo2
    template, loaded once, and what it renders for a problem, written out
    as string concatenation. */
module Generator {
  import opened Wrappers
  import opened Text
  import opened Numbers
  import Model

  /** The code block of a document. */
  datatype Code = Code(language: string, data: string)

  /** The values the template reads, already formatted by the caller. */
  datatype Problem = Problem(
    title: string,
    difficulty: string,
    tags: seq<string>,
    solutionURL: string,
    score: Option<Model.Uint8>,
    createdAt: string,
    updatedAt: string,
    slug: string,
    description: string,
    solution: string,
    code: Option<Code>)

  /** The lines of the template source getTemplate returns; the source
      starts with a line break and ends with one. */
  const TemplateLines: seq<string> := [
    "",
    "# {{ problem.Title }}",
    "",
    "| 属性 | 内容 |",
    "| ---- | ---- |",
    "| **难度** | {{ problem.Difficulty }} |",
    "| **标签** | {% for t in problem.Tags %}{{ t }}{% if not forloop.Last %}, {% endif %}{% endfor %} |",
    "| **链接** | [在线题目]({{ problem.SolutionURL }}) |",
    "{% if problem.Score != none %}| **评分** | {{ problem.Score }} |{% endif %}",
    "| **创建时间** | {{ problem.CreatedAt }} |",
    "| **更新时间** | {{ problem.UpdatedAt }} |",
    "| **Slug** | {{ problem.Slug }} |",
    "",
    "---",
    "",
    "## 📖 题目描述",
    "",
    "{{ problem.Description|default:\"暂无题目描述\" }}",
    "",
    "---",
    "",
    "## 💡 解题思路",
    "",
    "{{ problem.Solution|safe|default:\"暂无解题思路\" }}",
    "",
    "---",
    "",
    "## 🛠 代码实现",
    "",
    "{% if problem.Code != None %}",
    "~~~{{ problem.Code.Language }}",
    "{{ problem.Code.Data|safe }}",
    "~~~",
    "",
    "{% else %}",
    "暂无代码实现",
    "{% endif %}",
    ""]

  const TemplateText: string := Join(TemplateLines, "\n")

  /** The sync.Once cell that holds the template after the first call. */
  datatype Once = Once(loaded: Option<string>)

  /** A cell is only ever empty or holding the template. */
  predicate OnceOk(c: Once)
  {
    c.loaded.None? || c.loaded == Some(TemplateText)
  }

  /** GetTemplate: fills the cell on the first call, then answers its
      contents. The pair is (template, cell after the call). */
  function GetTemplate(c: Once): (r: (string, Once))
    requires OnceOk(c)
    ensures r.0 == TemplateText && r.1 == Once(Some(TemplateText))
  {
    match c.loaded
    case None => (TemplateText, Once(Some(TemplateText)))
    case Some(t) => (t, c)
  }

  /** The cell after `n` calls. */
  function Calls(c: Once, n: nat): (r: Once)
    requires OnceOk(c)
    ensures OnceOk(r)
    ensures n > 0 ==> r == Once(Some(TemplateText))
  {
    if n == 0 then c else GetTemplate(Calls(c, n - 1)).1
  }

  // ---------------------------------------------------------------------
  // What the template renders
  // ---------------------------------------------------------------------

  const DescriptionHeading: string := "## 📖 题目描述"
  const ApproachHeading: string := "## 💡 解题思路"
  const CodeHeading: string := "## 🛠 代码实现"
  const NoDescription: string := "暂无题目描述"
  const NoSolution: string := "暂无解题思路"
  const NoCode: string := "暂无代码实现"
  const Rule: string := "\n---\n\n"
  const Fence: string := "~~~"

  /** The start of each table row, up to its value. */
  const DifficultyLabel: string := "| **难度** | "
  const TagsLabel: string := "| **标签** | "
  const LinkLabel: string := "| **链接** | [在线题目]("
  const ScoreLabel: string := "| **评分** | "
  const CreatedLabel: string := "| **创建时间** | "
  const UpdatedLabel: string := "| **更新时间** | "
  const SlugLabel: string := "| **Slug** | "

  /** The `default` filter on a string: the fallback replaces "". */
  function Default(s: string, fallback: string): (r: string)
    ensures s != "" ==> r == s
    ensures s == "" ==> r == fallback
  {
    if s == "" then fallback else s
  }

  /** The tags cell: the tags in order with ", " between them. */
  function TagList(tags: seq<string>): string
  {
    Join(tags, ", ")
  }

  function TitleBlock(title: string): string
  {
    "\n# " + title + "\n\n"
  }

  const TableHead: string := "| 属性 | 内容 |\n| ---- | ---- |\n"

  function DifficultyRow(difficulty: string): string
  {
    DifficultyLabel + difficulty + " |\n"
  }

  function TagsRow(tags: seq<string>): string
  {
    TagsLabel + TagList(tags) + " |\n"
  }

  function LinkRow(url: string): string
  {
    LinkLabel + url + ") |\n"
  }

  /** The score line: a row when there is a score, empty otherwise. */
  function ScoreRow(score: Option<Model.Uint8>): string
  {
    match score
    case None => ""
    case Some(n) => ScoreLabel + FormatNat(n) + " |"
  }

  /** The line break after the score line and the rows after it. */
  function TableBottom(created: string, updated: string, slug: string): string
  {
    "\n" + CreatedLabel + created + " |\n"
    + UpdatedLabel + updated + " |\n"
    + SlugLabel + slug + " |\n"
  }

  function DescriptionSection(description: string): string
  {
    Rule + DescriptionHeading + "\n\n" + Default(description, NoDescription) + "\n\n"
  }

  function ApproachSection(solution: string): string
  {
    "---\n\n" + ApproachHeading + "\n\n" + Default(solution, NoSolution) + "\n\n"
  }

  const CodeHead: string := "---\n\n" + CodeHeading + "\n\n"

  /** The fenced code block, or the placeholder line. */
  function CodeBlock(code: Option<Code>): string
  {
    match code
    case Some(c) => "\n" + Fence + c.language + "\n" + c.data + "\n" + Fence + "\n\n"
    case None => "\n" + NoCode + "\n"
  }

  /** The output of the template, piece by piece: title, table rows (the
      score line among them), description, approach, code. */
  function Pieces(p: Problem): (r: seq<string>)
    ensures |r| == 12
  {
    [ TitleBlock(p.title),
      TableHead,
      DifficultyRow(p.difficulty),
      TagsRow(p.tags),
      LinkRow(p.solutionURL),
      ScoreRow(p.score),
      TableBottom(p.createdAt, p.updatedAt, p.slug),
      DescriptionSection(p.description),
      ApproachSection(p.solution),
      CodeHead,
      CodeBlock(p.code),
      "\n" ]
  }

  /** The document the template renders for `p`. */
  function Render(p: Problem): (r: string)
    ensures HasPrefix(r, TitleBlock(p.title))
    ensures HasSuffix(r, CodeBlock(p.code) + "\n")
  {
    var ps := Pieces(p);
    assert Concat(ps) == ps[0] + Concat(ps[1..]);
    assert (ps[0] + Concat(ps[1..]))[..|ps[0]|] == ps[0];
    ConcatAround(ps, 10);
    assert ps[11..] == ["\n"] && Concat(["\n"]) == "\n";
    var before := Concat(ps[..10]);
    assert Concat(ps) == before + (CodeBlock(p.code) + "\n");
    assert (before + (CodeBlock(p.code) + "\n"))[|before|..] == CodeBlock(p.code) + "\n";
    Concat(ps)
  }

  // ---------------------------------------------------------------------
  // Properties
  // ---------------------------------------------------------------------

  /** Every call answers the same template, however many calls came
      before. */
  lemma {:induction false} TemplateIsConstant(c: Once, n: nat)
    requires OnceOk(c)
    ensures GetTemplate(Calls(c, n)).0 == GetTemplate(c).0
  {
  }

  /** A score adds exactly its table row; nothing else in the document
      depends on it. */
  lemma ScoreRowOnlyDifference(p: Problem, n: Model.Uint8)
    ensures exists before, after ::
      && Render(p.(score := None)) == before + after
      && Render(p.(score := Some(n))) == before + ScoreLabel + FormatNat(n) + " |" + after
  {
    var before, after := ScorePieces(p, n);
  }

  lemma ScorePieces(p: Problem, n: Model.Uint8) returns (before: string, after: string)
    ensures Concat(Pieces(p.(score := None))) == before + after
    ensures Concat(Pieces(p.(score := Some(n)))) == before + ScoreLabel + FormatNat(n) + " |" + after
  {
    var q, q' := p.(score := None), p.(score := Some(n));
    ScoreOnlyPiece(p, n);
    ConcatAround(Pieces(q), 5);
    ConcatAround(Pieces(q'), 5);
    before, after := Concat(Pieces(q)[..5]), Concat(Pieces(q)[6..]);
    assert before + "" == before;
    var row := ScoreLabel + FormatNat(n) + " |";
    assert Concat(Pieces(q')) == before + row + after;
    assert before + row + after == before + ScoreLabel + FormatNat(n) + " |" + after;
  }

  /** The score changes the score piece and no other. */
  lemma ScoreOnlyPiece(p: Problem, n: Model.Uint8)
    ensures Pieces(p.(score := None))[..5] == Pieces(p.(score := Some(n)))[..5]
    ensures Pieces(p.(score := None))[6..] == Pieces(p.(score := Some(n)))[6..]
    ensures Pieces(p.(score := None))[5] == ""
    ensures Pieces(p.(score := Some(n)))[5] == ScoreLabel + FormatNat(n) + " |"
  {
  }

  /** An empty description or approach renders as its placeholder text. */
  lemma Placeholders(p: Problem)
    ensures Render(p.(description := "")) == Render(p.(description := NoDescription))
    ensures Render(p.(solution := "")) == Render(p.(solution := NoSolution))
  {
    assert Pieces(p.(description := "")) == Pieces(p.(description := NoDescription));
    assert Pieces(p.(solution := "")) == Pieces(p.(solution := NoSolution));
  }

  /** Without code the document ends in the placeholder line; with code it
      ends in a fence tagged with the language around the code itself. */
  lemma CodeSectionShape(p: Problem, c: Code)
    ensures exists before ::
      && Render(p.(code := None)) == before + "\n" + NoCode + "\n\n"
      && Render(p.(code := Some(c))) == before + "\n" + Fence + c.language + "\n" + c.data + "\n" + Fence + "\n\n\n"
  {
    var before := CodePieces(p, c);
  }

  lemma CodePieces(p: Problem, c: Code) returns (before: string)
    ensures Concat(Pieces(p.(code := None))) == before + "\n" + NoCode + "\n\n"
    ensures Concat(Pieces(p.(code := Some(c)))) == before + "\n" + Fence + c.language + "\n" + c.data + "\n" + Fence + "\n\n\n"
  {
    var q, q' := p.(code := None), p.(code := Some(c));
    CodeOnlyPiece(p, c);
    ConcatAround(Pieces(q), 10);
    ConcatAround(Pieces(q'), 10);
    assert Concat(["\n"]) == "\n";
    before := Concat(Pieces(q)[..10]);
    var none := "\n" + NoCode + "\n";
    var some := "\n" + Fence + c.language + "\n" + c.data + "\n" + Fence + "\n\n";
    assert Concat(Pieces(q)) == before + none + "\n";
    assert Concat(Pieces(q')) == before + some + "\n";
    assert before + none + "\n" == before + "\n" + NoCode + "\n\n";
    assert before + some + "\n" == before + "\n" + Fence + c.language + "\n" + c.data + "\n" + Fence + "\n\n\n";
  }

  /** The code changes the code piece and no other; the last piece is a
      line break. */
  lemma CodeOnlyPiece(p: Problem, c: Code)
    ensures Pieces(p.(code := None))[..10] == Pieces(p.(code := Some(c)))[..10]
    ensures Pieces(p.(code := None))[11..] == ["\n"] && Pieces(p.(code := Some(c)))[11..] == ["\n"]
    ensures Pieces(p.(code := None))[10] == "\n" + NoCode + "\n"
    ensures Pieces(p.(code := Some(c)))[10] == "\n" + Fence + c.language + "\n" + c.data + "\n" + Fence + "\n\n"
  {
  }

  /** The document opens with the title as a level-one heading. */
  lemma TitleFirst(p: Problem)
    ensures HasPrefix(Render(p), "\n# " + p.title + "\n")
  {
    var head := "\n# " + p.title + "\n";
    var rest := Concat(Pieces(p)[1..]);
    assert Render(p) == TitleBlock(p.title) + rest;
    assert Render(p) == head + ("\n" + rest);
  }

  /** The table's tag row lists the tags in order, separated by ", ". */
  lemma TagsShown(p: Problem)
    ensures Contains(Render(p), TagsLabel + TagList(p.tags) + " |\n")
  {
    ConcatAround(Pieces(p), 3);
    ContainsMiddle(Concat(Pieces(p)[..3]), TagsRow(p.tags), Concat(Pieces(p)[4..]));
  }

  /** Every piece of the document appears in it verbatim. */
  lemma PieceShown(p: Problem, i: int)
    requires 0 <= i < 12
    ensures Contains(Render(p), Pieces(p)[i])
  {
    ConcatAround(Pieces(p), i);
    ContainsMiddle(Concat(Pieces(p)[..i]), Pieces(p)[i], Concat(Pieces(p)[i + 1..]));
  }

  /** With code, the document holds the fenced block: an opening fence
      tagged with the language, the code, and a closing fence. */
  lemma CodeShown(p: Problem)
    requires p.code.Some?
    ensures Contains(Render(p), "\n" + Fence + p.code.value.language + "\n" + p.code.value.data + "\n" + Fence + "\n")
  {
    var block := "\n" + Fence + p.code.value.language + "\n" + p.code.value.data + "\n" + Fence + "\n";
    ConcatAround(Pieces(p), 10);
    var before, after := Concat(Pieces(p)[..10]), Concat(Pieces(p)[11..]);
    assert CodeBlock(p.code) == block + "\n";
    assert Render(p) == before + block + ("\n" + after);
    ContainsMiddle(before, block, "\n" + after);
  }
}
