/** The helpers shared by the commands (cmd/common.go): reading a value from
    a flag or, failing that, from standard input with backslash line
    continuation, and dropping a problem's tag associations. Standard input
    is a string that each read consumes from the front. */
module Common {
  import opened Wrappers
  import opened Text
  import opened Model
  import opened Store

  /** bufio.Reader.ReadString('\n'): the text up to and including the first
      newline, or all that is left when there is none; paired with the
      unread remainder. */
  function ReadLine(input: string): (r: (string, string))
    ensures r.0 + r.1 == input
    ensures forall i :: 0 <= i < |r.0| - 1 ==> r.0[i] != '\n'
    ensures r.1 != "" ==> |r.0| > 0 && r.0[|r.0| - 1] == '\n'
    ensures |input| > 0 ==> |r.0| > 0
  {
    if |input| == 0 then ("", "")
    else if input[0] == '\n' then ("\n", input[1..])
    else
      var (l, rest) := ReadLine(input[1..]);
      ([input[0]] + l, rest)
  }

  /** The characters stripped from the end of every line read. */
  const LineEnd: set<char> := {'\r', '\n'}

  /** Scanln: reads a line, drops its trailing CR/LF characters, and while
      the line ends with a backslash drops that backslash and appends the
      next line; the answer is the concatenation and the unread input. */
  function Scanln(input: string): (r: (string, string))
    ensures '\n' !in r.0
    ensures HasSuffix(input, r.1) && |r.1| <= |input|
    decreases |input|
  {
    var (raw, rest) := ReadLine(input);
    var line := TrimRight(raw, LineEnd);
    TrimRightShape(raw, LineEnd);
    assert '\n' !in line by {
      forall i | 0 <= i < |line| ensures line[i] != '\n' {
        if i == |raw| - 1 { assert line[i] == raw[|raw| - 1]; }
      }
    }
    if HasSuffix(line, "\\") then
      var (more, rest') := Scanln(rest);
      assert HasSuffix(input, rest') by {
        assert input == raw + rest;
        assert rest[|rest| - |rest'|..] == rest';
        assert input[|input| - |rest'|..] == rest[|rest| - |rest'|..];
      }
      (line[..|line| - 1] + more, rest')
    else
      assert input[|input| - |rest|..] == rest by { assert input == raw + rest; }
      (line, rest)
  }

  /** getOrPrompt: a flag value that is not blank is used, trimmed of
      surrounding white space; otherwise the value is read from the input
      as typed. The pair is (value, unread input). */
  function GetOrPrompt(flag: string, input: string): (r: (string, string))
    ensures TrimSpace(flag) != "" ==> r.0 == TrimSpace(flag) && r.1 == input
    ensures TrimSpace(flag) == "" ==> r == Scanln(input)
  {
    if TrimSpace(flag) != "" then (TrimSpace(flag), input) else Scanln(input)
  }

  /** Reads the values of a command's flags in order, prompting for each
      blank one (getAddCmdParams for the seven flags of `add`). */
  function GatherParams(flags: seq<string>, input: string): (r: (seq<string>, string))
    ensures |r.0| == |flags|
    ensures forall i :: 0 <= i < |flags| && TrimSpace(flags[i]) != "" ==> r.0[i] == TrimSpace(flags[i])
    ensures HasSuffix(input, r.1)
  {
    if |flags| == 0 then ([], input)
    else
      var (v, rest) := GetOrPrompt(flags[0], input);
      var (vs, rest') := GatherParams(flags[1..], rest);
      assert input[|input| - |rest'|..] == rest' by {
        if TrimSpace(flags[0]) == "" {
          assert input[|input| - |rest|..] == rest;
          assert rest[|rest| - |rest'|..] == rest';
        }
      }
      ([v] + vs, rest')
  }

  /** The seven values `add` gathers and `edit` takes from its flags, in
      prompt order. */
  datatype Params = Params(
    title: string,
    difficulty: string,
    tags: string,
    solution: string,
    note: string,
    codePath: string,
    score: string)

  /** getAddCmdParams: the gathered values in prompt order. */
  function ParamsOf(values: seq<string>): (r: Params)
    requires |values| == 7
    ensures [r.title, r.difficulty, r.tags, r.solution, r.note, r.codePath, r.score] == values
  {
    Params(values[0], values[1], values[2], values[3], values[4], values[5], values[6])
  }

  /** clearProblemTags: `First(problem, id)` reloads the stored row with
      id `pid` into the caller's struct, so whatever the caller changed in
      it is replaced by the stored values; then Association("Tags").Clear()
      deletes the join rows of `pid`. The result is the cleared store and
      the reloaded row; a missing row is an error. */
  function ClearProblemTags(s: Store, pid: int): (r: Result<(Store, Problem), Error>)
    ensures r.Err? <==> pid !in ProblemIdSet(s.problems)
    ensures r.Err? ==> r.error == LoadFailed(pid)
    ensures r.Ok? ==> r.value.1 in s.problems && r.value.1.id == pid
    ensures r.Ok? ==> r.value.0.problems == s.problems && r.value.0.tags == s.tags
    ensures r.Ok? ==> forall l :: l in r.value.0.links <==> l in s.links && l.problemId != pid
  {
    match FindById(s.problems, pid)
    case None => Err(LoadFailed(pid))
    case Some(i) => Ok((s.(links := Unlink(s.links, pid)), s.problems[i]))
  }

  /** With unique ids the reload gives back exactly the stored row that has
      the id. */
  lemma ReloadIsStoredRow(s: Store, i: int)
    requires UniqueIds(s.problems) && 0 <= i < |s.problems|
    ensures ClearProblemTags(s, s.problems[i].id) == Ok((s.(links := Unlink(s.links, s.problems[i].id)), s.problems[i]))
  {
    assert s.problems[i].id in ProblemIdSet(s.problems);
  }

  // ---------------------------------------------------------------------
  // Properties
  // ---------------------------------------------------------------------

  /** What a user types for a value split over several lines: every line
      but the last ends in a backslash, and each line ends with a newline. */
  function TypeLines(chunks: seq<string>): string
    requires |chunks| >= 1
  {
    if |chunks| == 1 then chunks[0] + "\n"
    else chunks[0] + "\\\n" + TypeLines(chunks[1..])
  }

  lemma {:induction false} ReadLineUpToNewline(c: string, rest: string)
    requires '\n' !in c
    ensures ReadLine(c + "\n" + rest) == (c + "\n", rest)
  {
    if |c| > 0 {
      assert (c + "\n" + rest)[1..] == c[1..] + "\n" + rest;
      ReadLineUpToNewline(c[1..], rest);
      assert [c[0]] + (c[1..] + "\n") == c + "\n";
    } else {
      assert c + "\n" + rest == "\n" + rest;
    }
  }

  /** A last line: its CR/LF ending is dropped and reading stops. */
  lemma ScanlnLastLine(c: string, rest: string)
    requires '\n' !in c && (|c| == 0 || (c[|c| - 1] != '\\' && c[|c| - 1] != '\r'))
    ensures Scanln(c + "\n" + rest) == (c, rest)
  {
    ReadLineUpToNewline(c, rest);
    assert TrimRight(c + "\n", LineEnd) == c by {
      assert (c + "\n")[..|c|] == c;
    }
  }

  /** A continued line: its backslash is dropped and reading goes on. */
  lemma ScanlnContinuedLine(c: string, tail: string)
    requires '\n' !in c
    ensures Scanln(c + "\\\n" + tail) == (c + Scanln(tail).0, Scanln(tail).1)
  {
    assert c + "\\\n" + tail == (c + "\\") + "\n" + tail;
    ReadLineUpToNewline(c + "\\", tail);
    assert TrimRight(c + "\\" + "\n", LineEnd) == c + "\\" by {
      assert (c + "\\" + "\n")[..|c| + 1] == c + "\\";
    }
    assert (c + "\\")[..|c|] == c;
  }

  /** Continuation lines read back as their concatenation, and the input
      after the last line is left unread: the lines may hold anything but a
      newline, and the last must not end in a backslash or a CR. */
  lemma {:induction false} ScanlnReadsTypedLines(chunks: seq<string>, rest: string)
    requires |chunks| >= 1
    requires forall i :: 0 <= i < |chunks| ==> '\n' !in chunks[i]
    requires var last := chunks[|chunks| - 1]; |last| == 0 || (last[|last| - 1] != '\\' && last[|last| - 1] != '\r')
    ensures Scanln(TypeLines(chunks) + rest) == (Join(chunks, ""), rest)
  {
    var c := chunks[0];
    if |chunks| == 1 {
      ScanlnLastLine(c, rest);
    } else {
      var tail := TypeLines(chunks[1..]) + rest;
      assert TypeLines(chunks) + rest == c + "\\\n" + tail;
      ScanlnContinuedLine(c, tail);
      ScanlnReadsTypedLines(chunks[1..], rest);
      JoinCons(c, chunks[1..], "");
      assert c + "" == c;
    }
  }

  /** A blank flag with one typed line reads exactly that line. */
  lemma PromptReadsTypedLine(flag: string, v: string, rest: string)
    requires TrimSpace(flag) == ""
    requires '\n' !in v && (|v| == 0 || (v[|v| - 1] != '\\' && v[|v| - 1] != '\r'))
    ensures GetOrPrompt(flag, v + "\n" + rest) == (v, rest)
  {
    ScanlnReadsTypedLines([v], rest);
    assert TypeLines([v]) == v + "\n";
  }

  /** With every flag given, nothing is read from standard input. */
  lemma {:induction false} GatherWithoutPrompts(flags: seq<string>, input: string)
    requires forall i :: 0 <= i < |flags| ==> TrimSpace(flags[i]) != ""
    ensures GatherParams(flags, input).1 == input
  {
    if |flags| > 0 {
      GatherWithoutPrompts(flags[1..], input);
    }
  }
}
