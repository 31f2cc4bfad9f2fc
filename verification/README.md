# algo: a Dafny model of the problem-notebook commands

`algo` is a command-line notebook for algorithm problems. Problems live in a
SQLite database, and each one has a title, a difficulty, tags, a solution
link, a note, an optional score from 0 to 255, and a managed copy of its code
file. The commands are:

- `add` records a problem;
- `edit` changes it;
- `remove` deletes it;
- `list` searches the table;
- `gen` renders a problem, or a whole contest, as a Markdown document.

This project models the core of those commands as pure functions over an
immutable state and proves properties about them:

- **Data.** A `Store` holds the problems table, the tags table and the
  `problem_tags` join table (`Store.Link`). An `Fs` is a map from file paths
  to contents, plus the set of paths that cannot be written or removed.
- **Transactions.** A command that runs in a transaction returns an `Effect`.
  The effect holds either the new store or the error that rolled it back,
  together with the file system afterwards. File writes are not part of the
  transaction, so a rolled-back command can still leave a new file behind.
- **Modules:**
  - `Model`: difficulty validation and the code-file copy.
  - `Slug`: slug derivation.
  - `Store`: table lookups, id allocation, join rows and the consistency
    invariant `StoreOk`.
  - `Add`, `Edit`, `Remove`, `Listing`: the four commands; tag resolution
    lives in `Add`.
  - `Common`: flag-or-prompt input.
  - `Generator`: the Markdown template.
  - `Gen`: the `gen` command, with timestamp formatting and the code-fence
    language.
  - `Config`: the directory settings.
  - `Text`, `Numbers`, `Files`, `Wrappers`: the parts of Go's `strings`,
    `strconv`, `fmt`, `filepath` and `os` that the commands use.
  - `Scenarios`: worked examples on concrete values.
- **Unicode.** The Unicode classes (Han, letter, number), the case map and
  the pinyin reading of a Han character are parameters (`Text.Runes`). The
  properties hold for any such tables. `Text.AsciiRunes` gives the concrete
  ASCII tables that the examples use.

Where the documented behaviour and the code differ, the model follows the
code:

- **`list --limit 0`.** The code accepts a limit of 0 (`list.go:46`). The
  model treats it as SQL `LIMIT 0`, which returns no rows.
- **`edit --tags` reloads the row.** Before clearing the join rows,
  `clearProblemTags` reloads the stored row by id into the struct that the
  edit has been changing (`common.go:53`). A title, slug or difficulty given
  in the same edit is therefore lost, and a new code file is copied under
  the old slug. `Edit.TagStep` selects between this behaviour (`AsWritten`)
  and the evidently intended one (`Intended`); see "## Findings".
- **Repeated tag names.** Tag resolution returns one tag per listed name. So
  `"DP, dp"` resolves to the same tag twice (`Scenarios.RepeatedTag`,
  `Add.ResolveTagsConsistent`).

## Model

| member | source | states |
|---|---|---|
| Model.Valid | internal/model/problem.go:30-39 | A difficulty is accepted exactly when its lowercase form is easy, medium or hard, and it is then rewritten to that form. A refused value is left as it was. |
| Model.ValidIsCaseInsensitive | internal/model/problem.go:30-39 | With the ASCII case map, a difficulty is accepted exactly when it equals one of the three levels ignoring case, and it is stored as that level in lowercase. |
| Model.ValidIdempotent | internal/model/problem.go:30-39 | Validating a value a second time changes neither the answer nor the value. |
| Model.SetCodePath | internal/model/problem.go:84-109 | The copy succeeds exactly when the source file can be read and the destination `<codeDir>/<slug>_code<ext>` can be written. The copy holds the source's bytes and no other file changes. A failure names the path that failed. |
| Model.CodeCopyKeepsExt | internal/model/problem.go:99-101 | The managed copy keeps the extension of the original file. |
| Model.CodeFileNameParts | internal/model/problem.go:99-100 | The copy's file name starts with the slug and "_code", and keeps the original's extension whenever it has one. |
| Files.ExtShape | internal/model/problem.go:99 | An extension is a suffix of the path: empty, or a dot followed by characters that are neither dots nor slashes. |
| Files.ExtOfSuffix | internal/model/problem.go:99 | Appending a dot and text without dots or slashes makes that the extension, whatever comes before. |
| Files.ExtAppend | internal/model/problem.go:99-100 | A name with an extension keeps it whatever is put in front of it. |
| Slug.SlugTextWellFormed | internal/model/problem.go:75-79 | The text part of a slug never starts or ends with '-' and never holds two dashes in a row. |
| Slug.SlugTextIsJoinedWords | internal/model/problem.go:61-79 | Collapsing and trimming dashes only removes separators: the slug text is the dash-separated words of the rune tokens, joined by single dashes. |
| Slug.SetSlugIsPaddedWords | internal/model/problem.go:57-82 | A slug is the id padded to four digits, an underscore, and the dash-separated words of the title's rune tokens joined by single dashes; the text after the underscore has no leading, trailing or doubled dash. |
| Slug.TokensAppend | internal/model/problem.go:61-75 | Tokens are produced rune by rune: the tokens of a concatenated title are the concatenated tokens. |
| Slug.SlugIdRoundTrip | internal/model/problem.go:81 | The part of a slug before its first '_' is at least four digits and reads back as the problem id. |
| Slug.SlugsOfDistinctIdsDiffer | internal/model/problem.go:81 | Two different non-negative ids give different slugs, whatever the titles are. |
| Slug.UnreadableTitle | internal/model/problem.go:61-81 | A title without a letter, number or Han character gives the slug `<id>_` with nothing after the underscore. |
| Slug.CleanTokens | internal/model/problem.go:61-81 | When the rune tokens are already well formed, the slug is the padded id, '_' and the tokens unchanged. |
| Numbers.Atoi | cmd/add.go:60 | An optional sign followed by at least one decimal digit reads as the digits' value with the sign, and it is refused as out of range exactly when that value is outside int64. Any other text is refused, as a syntax error or a range error. Text of 20 characters or fewer is a syntax error exactly when it has some other shape. |
| Numbers.AtoiOverflowFirst | cmd/add.go:60 | When the digits after the sign are already past 2^64 - 1, the answer is a range error whatever follows, because ParseUint's left-to-right scan stops there. |
| Numbers.AtoiSyntaxAfterFit | cmd/add.go:60 | When the digits after the sign fit 64 unsigned bits, a character after them that is not a digit makes the answer a syntax error. |
| Numbers.AtoiFormat | cmd/add.go:60 | Atoi reads back every int64 value that `%d` prints. |
| Numbers.AtoiNonCanonical | cmd/edit.go:93 | Leading zeros and a leading '+' are accepted, and "-0" reads as 0: any number of zeros in front of a printed value, signed or not, reads as that value. |
| Numbers.PaddedRoundTrip | internal/model/problem.go:81 | A value below 10^w, printed with `%0wd`, is exactly w digits long and reads back as the value. |
| Store.NextId | cmd/add.go:48-50 | A new id is above every id in the table. It is 1 in an empty table and otherwise one more than the largest id, so a removed top id is handed out again. |
| Store.FindBySlug | cmd/edit.go:53-55 | The lookup answers a row with that slug, or answers none exactly when no row has it. |
| Store.FindById | cmd/common.go:53 | The lookup by primary key answers a row with that id, or answers none exactly when no row has it. |
| Store.FindTag | cmd/add.go:95 | The lookup answers a row of the tags table with that name, or answers none exactly when no row has it. |
| Store.TagsOf | cmd/gen.go:41 | A problem's preloaded tags are exactly the rows of the tags table that the join table links to the problem, ordered by ascending id, which is the order SQLite answers the preload's `WHERE id IN (...)` query in. |
| Store.TagsOfUnique | cmd/gen.go:41 | With unique tag ids, as the tags table's primary key makes them, the ids strictly ascend and there are no more tags than join rows. |
| Store.SlugsUnique | internal/model/problem.go:45 | In a consistent store no two rows share a slug, as the unique index demands. |
| Store.UnlinkUndoesLinkAll | cmd/common.go:58 | Clearing a problem's associations removes exactly the join rows that linking it added. |
| Add.NormalizeTags | cmd/add.go:84-91 | A tag list yields exactly one name per comma-separated piece that is not blank, and never an empty name. |
| Add.NormalizeTagsNames | cmd/add.go:84-91 | Each name is the trimmed, lowercased text of a non-blank piece, and every non-blank piece gives its name. |
| Add.PieceIsTagName | cmd/add.go:86-89 | With a case map that is idempotent and sends no other rune to white space or ',', a non-blank piece becomes a name that is non-empty, trimmed, lowercase and free of commas. |
| Add.NormalizeTagsIdempotent | cmd/add.go:84-91 | With such a case map, every name is in that normal form, and normalising the names joined by commas gives them back. |
| Add.NormalizeJoinedNames | cmd/add.go:84-91 | Joining normalised names with commas and normalising again gives the same names back. |
| Add.ResolveTags | cmd/add.go:86-111 | Resolution fails exactly when the lookup of some name breaks. Otherwise the tags table only grows, and the answer holds one tag per name, in order, each with that name and present in the table. |
| Add.LookupOrCreate | cmd/add.go:93-104 | An existing row is reused. A missing name gets a new row appended, with id 1 in an empty table and otherwise one more than the largest id. |
| Add.ResolveTagsKeepsTable | cmd/add.go:93-104 | Tag ids and tag names stay unique. |
| Add.ResolveTagsCreatesOnlyMissing | cmd/add.go:95-104 | Every created row carries a listed name that had no row before. |
| Add.ResolveTagsFreshIds | cmd/add.go:93-99 | Every created row has an id above every id that existed before. |
| Add.ResolveTagsReusesRows | cmd/add.go:95 | A name that already had a row resolves to that very row. |
| Add.ResolveTagsConsistent | cmd/add.go:86-109 | Equal names resolve to the same row, so a repeated name never creates two rows. |
| Add.AddScore | cmd/add.go:60-65 | A score is stored exactly when the text is a number from 0 to 255, and it is then that number. Anything else leaves the score unset. |
| Add.AddScoreRoundTrip | cmd/add.go:60-65 | Every uint8, printed in decimal, is stored as itself. |
| Add.AddProblem | cmd/add.go:32-80 | A successful add appends exactly one row and only grows the tags table. An invalid difficulty stops the command before it touches any file. |
| Add.AddFailsExactly | cmd/add.go:32-80 | On a consistent store, add fails exactly when the difficulty is not a level, a tag lookup breaks, the code file cannot be read, or its copy cannot be written. A failed add leaves the files unchanged. |
| Add.AddKeepsStoreOk | cmd/add.go:43-73 | Add keeps the store consistent. Problem ids, tag ids and tag names stay unique. Every row keeps the slug its id and title give and a level as its difficulty. Join rows point at existing rows, without duplicates. |
| Add.AddedProblemRow | cmd/add.go:48-67 | The new row has id 1 in an empty table and otherwise one more than the largest id. It carries the given title, solution link and note, the slug for that id and title, the lowercase difficulty, the score add reads, `now` as both times and no description. Its code path holds a copy of the given file, and a lookup of its slug finds it. |
| Add.InsertedTags | cmd/add.go:55-70 | Inserting a row with its resolved tags links it to exactly the tags with the listed names. |
| Add.AddedProblemTags | cmd/add.go:44-68 | The added problem is linked to exactly the tags that the normalised list names. |
| Common.GetOrPrompt | cmd/common.go:21-28 | A flag with content is used trimmed and reads no input. An empty or blank flag reads one logical line. |
| Common.Scanln | cmd/common.go:30-49 | A logical line never contains a newline, and reading it consumes a prefix of the input. |
| Common.ScanlnLastLine | cmd/common.go:34-46 | A line that does not end in a backslash is read without its line break, and the rest of the input is left unread. |
| Common.ScanlnContinuedLine | cmd/common.go:38-42 | A line ending in a backslash continues onto the next line: the backslash is dropped and the pieces are joined. |
| Common.ScanlnReadsTypedLines | cmd/common.go:30-49 | Typing chunks separated by backslash-newline reads back their concatenation, and the input after the last chunk stays unread. |
| Common.PromptReadsTypedLine | cmd/common.go:21-28 | With a blank flag, the value is the line the user types. |
| Common.GatherParams | cmd/add.go:114-123 | The seven parameters are gathered in order. Every flag with content gives its trimmed value, and what is left unread is a suffix of the input. |
| Common.GatherWithoutPrompts | cmd/add.go:114-123 | When every flag is given, no input is read. |
| Common.ClearProblemTags | cmd/common.go:51-62 | The reload by id fails exactly when no row has the id, and otherwise gives back a stored row with that id. Clearing then removes exactly the problem's join rows and leaves the problems and tags tables as they were. |
| Common.ReloadIsStoredRow | cmd/common.go:53 | With unique ids, reloading a stored row's id gives back that very row. |
| Edit.EditScore | cmd/edit.go:92-101 | An edit fails on score text exactly when the text is given and is not a number, and the error names that text. |
| Edit.EditScoreAgreesWithAdd | cmd/edit.go:92-101 | A numeric score is read as add reads it. Where add leaves the score unset, edit keeps the old one. |
| Edit.EditTags | cmd/edit.go:68-81 | Without a tag list nothing changes. With one, the tags table only grows and every other problem keeps its join rows. As written the edit goes on with the stored row that the reload gave back; as intended, with the row as edited so far. |
| Edit.EditCode | cmd/edit.go:88-91 | Without a code path, the code path and the files stay as they were. |
| Edit.EditProblem | cmd/edit.go:51-105 | An unknown slug is reported as not found and leaves everything as it was. A successful edit keeps the number of rows and only grows the tags table. |
| Edit.EditWritesOneRow | cmd/edit.go:57-105 | A successful edit rewrites exactly the row found by the slug, with the row `Edit.EditedRow` describes: as written, a tag list brings back the stored title, slug and difficulty. Every other row stays, and the tags and join tables are those of the tag step. |
| Edit.TagStepRow | cmd/edit.go:73 | With unique ids, the tag step goes on with the stored row when it reloads, and with the row as edited so far otherwise. |
| Edit.EditedRowFields | cmd/edit.go:57-101 | A flag with content sets its field and an empty flag keeps it, except that, as written, a tag list brings back the stored title, slug and difficulty. The id never changes and the slug follows the title. A new code file is copied under the slug the row has at that step. A score from 0 to 255 is set and any other number keeps the old one. The update time is the edit's own. |
| Edit.EditNothing | cmd/edit.go:51-105 | An edit without flags changes only the update time of the row. |
| Edit.EditedSlugFree | cmd/edit.go:57-60 | In a consistent store, a retitled row's slug never clashes with another row's slug. |
| Edit.RetitleMovesSlug | cmd/edit.go:57-60 | When no reload intervenes and a new title changes the slug, after the edit the old slug finds nothing and the new slug finds the same row. |
| Edit.TagsUndoRetitle | cmd/edit.go:57-81 | As written, an edit with a tag list saves the stored title, slug and difficulty, whatever `--title` and `--difficulty` said. |
| Edit.IntendedKeepsRetitle | cmd/edit.go:57-67 | With the intended tag step, the saved row has the title and difficulty given and the slug of that title, with or without a tag list. |
| Edit.EditFailsExactly | cmd/edit.go:51-105 | On a consistent store, an edit fails exactly when the slug is unknown, the difficulty is not a level, a tag lookup breaks, a code file cannot be read or copied under the slug the row has at the code step, or a score is not a number. |
| Edit.EditCopyOutlivesRollback | cmd/edit.go:88-96 | When a later step rolls the edit back, the code copy that was already written stays on disk. |
| Edit.UpdateKeepsRows | cmd/edit.go:103-105 | Saving a consistent row under the same id keeps ids unique and the set of ids unchanged. |
| Store.RelinkKeepsLinks | cmd/edit.go:73-79 | Replacing a problem's join rows by rows to existing tags keeps every join row pointing at existing rows, without duplicates. |
| Edit.EditKeepsLinks | cmd/edit.go:68-81 | Replacing a problem's tags keeps every join row pointing at existing rows, without duplicates. |
| Edit.EditKeepsStoreOk | cmd/edit.go:51-105 | Edit keeps the store consistent. |
| Edit.EditReplacesTags | cmd/edit.go:68-81 | After an edit with a tag list, the problem is linked to exactly the listed tags. Every other problem's join rows are unchanged. |
| Files.RemoveFile | cmd/remove.go:49-53 | Removing a missing file is not an error. Removing an existing file fails only when the file is protected. A removal touches no other file. |
| Remove.RemoveProblem | cmd/remove.go:33-56 | An unknown slug is reported as not found. Removal succeeds exactly when the row exists and its code file is absent or can be removed. A failed removal leaves the files unchanged. |
| Remove.RemoveDeletesOnlyTheProblem | cmd/remove.go:39-53 | Removal drops exactly the row, its join rows and its code file. Every other row, join row and file stays. |
| Remove.WithoutIds | cmd/remove.go:45-47 | Deleting a row removes exactly its id from the set of ids. |
| Remove.RemoveKeepsStoreOk | cmd/remove.go:33-56 | Remove keeps the store consistent. |
| Remove.RemoveUndoesAdd | cmd/remove.go:33-56 | Removing a problem that was just added restores the problems and join tables and deletes the code copy. The tags that add created are kept. |
| Listing.Select | cmd/list.go:54-73 | The selected rows are exactly the rows that satisfy every given filter. |
| Listing.SortNewest | cmd/list.go:74 | The listing is a permutation of the selection, ordered newest first. |
| Listing.Page | cmd/list.go:52 | A page holds the rows from the offset on, at most limit of them, in order. |
| Listing.DifficultyFilter | cmd/list.go:54-61 | A difficulty filter is accepted exactly when it is empty or names a level, and it then compares against the lowercase level. |
| Listing.ListProblems | cmd/list.go:37-77 | The paging check rejects exactly a negative limit, a negative offset, or a limit above 100. The listing fails exactly then or on an unknown difficulty. A listing holds at most limit entries, each with its own preloaded tags (`TagsOf`) in ascending id order. |
| Listing.MatchesQuery | cmd/list.go:54-73 | With an accepted difficulty filter, a problem the WHERE clauses keep passes the flags as typed: a title containing the keyword, the lowercase difficulty, a tag row linked to it in the join table with a name in the comma list, and the score the text reads as. Conversely, every problem that passes is kept. |
| Listing.MatchingHolds | cmd/list.go:74 | Before paging, the matching rows are newest first and are exactly the stored rows that pass the filters. |
| Listing.ListedRowsMatch | cmd/list.go:54-73 | Every listed row is a stored row that satisfies each given filter. |
| Listing.ListNewestFirst | cmd/list.go:74 | Listed rows come newest first. |
| Listing.ListIsComplete | cmd/list.go:52-74 | When the page covers the whole table, every row that passes the filters is listed. |
| Listing.PagesTile | cmd/list.go:46-52 | Two consecutive pages together are the page that spans both. |
| Listing.TagNames | cmd/list.go:92-98 | No tags print as nothing, and one tag prints as its name. |
| Listing.TagNamesRoundTrip | cmd/list.go:92-98 | The printed tag names, fed back as a tag list, normalise to the same names. |
| Generator.GetTemplate | internal/generator/generator.go:10-15 | Every call answers the template text, and the first call caches it. |
| Generator.Calls | internal/generator/generator.go:10-15 | After any positive number of calls, the cache holds the template. |
| Generator.TemplateIsConstant | internal/generator/generator.go:10-15 | Later calls answer the same text as the first call. |
| Generator.ScoreRowOnlyDifference | internal/generator/generator.go:45 | Documents with and without a score differ only by the score row, which shows the number. |
| Generator.Placeholders | internal/generator/generator.go:54-60 | An empty description or solution renders as its placeholder text. |
| Generator.Render | internal/generator/generator.go:36-75 | A document opens with the title block and ends with the code block (or its placeholder) and a final line break. |
| Generator.CodeSectionShape | internal/generator/generator.go:66-73 | With code, the document ends in a fenced block tagged with the language. Without code, it ends in the no-code placeholder. Everything before that is the same. |
| Generator.TitleFirst | internal/generator/generator.go:37-38 | A document starts with the problem title as a level-one heading. |
| Generator.TagsShown | internal/generator/generator.go:43 | The tags row lists the tags separated by ", ". |
| Generator.PieceShown | internal/generator/generator.go:37-74 | Every part of the template appears in the document. |
| Generator.CodeShown | internal/generator/generator.go:66-70 | The code appears verbatim inside a fence tagged with its language. |
| Gen.ParseTimestamp | cmd/gen.go:96-97 | Only a 19-character string in the timestamp layout with valid fields reads as a time. |
| Gen.TimestampFields | cmd/gen.go:96-97 | A valid time prints as `YYYY-MM-DD hh:mm:ss`, with each field zero-padded in its place. |
| Gen.FormatTimestamp | cmd/gen.go:96-97 | Every valid time prints as 19 characters that read back as the same time. |
| Gen.TimestampUnique | cmd/gen.go:96-97 | A string that reads as a time is exactly how that time prints, so the layout is unambiguous. |
| Gen.Language | cmd/gen.go:99 | The language is the extension without its dot: empty for a file without an extension, and never containing '.' or '/'. |
| Gen.LanguageOfSuffix | cmd/gen.go:99 | A file named `stem.lang` has language `lang`. |
| Gen.CopyKeepsLanguage | cmd/gen.go:99 | The managed code copy has the same language as the original file. |
| Gen.Project | cmd/gen.go:107-122 | The rendering view carries the row's fields and the note as the solution. The timestamps read back as the row's times, the tag names appear in the order of the tags given, and the code is the file's content in its language. |
| Gen.RenderProblemMarkdown | cmd/gen.go:91-132 | Rendering fails exactly when the code file cannot be read, and the error names that file. |
| Gen.RenderedDocument | cmd/gen.go:91-132 | A rendered problem starts with its title, lists its preloaded tags (`TagsOf`, ascending id) joined by ", ", shows its note as the approach, and holds its code file in a fence. |
| Gen.MarkdownPath | cmd/gen.go:50-56 | A document lives at `<markdownDir>/<folder>/<name>.md`. |
| Gen.MarkdownPathInjective | cmd/gen.go:55-56 | Different names in one folder get different paths. |
| Gen.GenProblem | cmd/gen.go:39-60 | An unknown slug is reported as not found. Generation succeeds exactly when the code file is readable and the document path is writable. On success that path holds the rendered document and no other file changes. |
| Gen.FindContest | cmd/gen.go:63 | A found contest has the requested title and kind. None is found exactly when no contest matches. |
| Gen.Collect | cmd/gen.go:68-75 | The export succeeds exactly when every render succeeds. Otherwise it stops at the first failure with that failure's error. |
| Gen.ExportContest | cmd/gen.go:67-75 | A contest export fails exactly when some problem's code file is missing, and reports the first such file. |
| Gen.ExportIsJoin | cmd/gen.go:67-75 | A successful export is the problems' documents, each followed by the separator. |
| Gen.ExportAppend | cmd/gen.go:67-75 | Exporting two lists of problems one after the other gives the export of the concatenated list. |
| Gen.GenContest | cmd/gen.go:61-86 | An unknown contest is reported as not found. Generation succeeds exactly when every problem's code is readable and the document path is writable. On success only that file changes and it holds the export. |
| Gen.Generate | cmd/gen.go:33-39 | The kind "pro" generates one problem, and any other kind generates a contest of that kind. |
| Config.ExpandField | pkg/config/config.go:30-34 | A value that starts with "~/" becomes the home directory, a slash and the rest of the value. |
| Config.ExpandFieldExactly | pkg/config/config.go:32-34 | Only a leading "~/" is expanded. Every other value is left as it is. |
| Config.ExpandHome | pkg/config/config.go:26-37 | Each of the four fields that starts with "~/" becomes the home directory, a slash and the rest of the value, and every other field is left as it is. |
| Config.ExpandHomeIdempotent | pkg/config/config.go:26-37 | With an absolute home directory, expanding twice is the same as expanding once. |
| Config.ExpandHomeFieldwise | pkg/config/config.go:26-37 | Each field of the result depends on that field alone. |
| Config.DefaultsUnderHome | pkg/config/config.go:19-24 | The four default directories expand to `<home>/algo/code`, `notes`, `db` and `markdown`. |
| Config.LoadAsWritten | pkg/config/config.go:42-60 | As written, loading gives the expanded defaults whatever the configuration file holds. |
| Config.FileIgnoredExample | pkg/config/config.go:51-57 | A file that sets an absolute markdown directory is ignored as written and honoured as intended. |
| Config.Load | pkg/config/config.go:42-60 | As intended, loading fails exactly on a malformed file. A missing file gives the expanded defaults, and a read file is laid over the defaults and expanded. |
| Config.LoadHonoursFile | pkg/config/config.go:51-59 | Every key the file sets is used, expanded. Every key it leaves out keeps its expanded default. |
| Scenarios.TwoSumSlug | internal/model/problem.go:57-81 | Problem 1 titled "Two Sum" gets the slug `0001_two-sum`. |
| Scenarios.OverflowBeforeBadCharacter | cmd/add.go:60 | `99999999999999999999x` is a range error, not a syntax error. |
| Scenarios.ScoreReadings | cmd/add.go:60-65 | For add, "300" and "abc" leave the score unset and "42" stores 42. For edit, "300" keeps the old score and "abc" is refused. |
| Scenarios.RepeatedTag | cmd/add.go:84-91 | "DP, dp" names the tag dp twice. |
| Scenarios.TagOrderExample | cmd/list.go:52 | With tags a (id 1) and b (id 2) linked as b then a, the preload answers a, then b. |
| Scenarios.TimestampExample | cmd/gen.go:96 | 9 March 2024, 07:05:00 prints as `2024-03-09 07:05:00`. |
| Scenarios.LanguageExample | cmd/gen.go:99 | A `.go` file is fenced as `go`. |

## Left out

- Edit.EditCode: its own contract states only the case without a code path. The copy is `Model.SetCodePath`'s contract, and its failure cases are in `Edit.EditFailsExactly`.
- Listing.TagNames: its own contract covers zero and one tag. For any list of names the partner lemma `Listing.TagNamesRoundTrip` states the content.
- Database failures other than a failed tag lookup (a failed insert, save or delete, or a lost connection) are not modelled. SQLite and gorm are not part of this model.
- The panics in `add` (invalid difficulty, unreadable code file) become error results. So do the panics of `SetCodePath` when `edit` copies a new code file (`edit.go:90`, `problem.go:85-89` and `102-105`): `Edit.EditCode` answers an error and the edit rolls back. Logging, cobra flag wiring and the debug echo are left out.
- Matching in `list` is modelled as exact: a case-sensitive substring test for the title, and `score = ?` compared as a number. SQLite's LIKE case folding and its `%`/`_` wildcards, and SQLite's type coercion of the score text, are approximated.
- The order of a problem's tags rests on SQLite answering the preload's `SELECT * FROM tags WHERE id IN (...)` in rowid order, that is by ascending id. SQL itself leaves the order of a query without ORDER BY open.
- A tag filter in `list` joins one row per matching tag, so the database can return a problem twice. The model lists each matching problem once.
- Whether gorm sends `LIMIT 0` or drops it depends on its version. The model treats 0 as returning no rows.
- The Markdown rendering assumes pongo2's `default` filter for empty strings and its `none` test for a missing score. HTML autoescaping of `{{ }}` output is not modelled, so titles and tags appear verbatim. Template parse and execute errors are not modelled, since the template is a constant.
- Contests come from a database table outside the problems, tags and join tables. They are passed in as a sequence of `Gen.Contest` values.
- `filepath.Join` cleans its result. `Files.PathJoin` joins with a single '/' and does not clean `..`, duplicate slashes or trailing slashes.
- Directory creation (`os.MkdirAll`) is assumed to succeed. Only the final write can fail.
- `os.UserHomeDir` becomes the `home` parameter. Decoding the TOML file becomes `Config.ConfigFile`: missing, malformed, or parsed settings. The once-only initialisation of the configuration is not modelled.
- `Scanln` creates a new buffered reader on every call, which can drop piped input it has already buffered. The model reads exactly one logical line per call.
- Model.DateTime: validity allows day 31 in every month, and only valid times (years up to 9999) are proved to print and read back.
- Time zones and the clock: a command's current time is the `now` parameter.

## Findings

| source | as written | input that shows it | evidently intended | confidence | as-written member | corrected member |
|---|---|---|---|---|---|---|
| cmd/edit.go:57-81 | With `--tags`, clearProblemTags (cmd/common.go:53) reloads the stored row into the struct being edited, so the title, slug and difficulty set before it are dropped and a new code file is named after the old slug. | problem 1 "Two Sum" (`0001_two-sum`, easy) and `edit 0001_two-sum --title "Three Sum" --difficulty hard --tags dp`: the saved row is still "Two Sum", `0001_two-sum`, easy | Every flag given is applied: the row keeps the new title, slug and difficulty, and the tags are replaced | high; not executed | Edit.TagsUndoRetitle | Edit.IntendedKeepsRetitle |
| pkg/config/config.go:51-57 | The configuration file is decoded only when reading it fails, and then the empty data of the failed read is decoded. A file that was read is never decoded. | `~/algo/algo.toml` containing `[dir]` `markdown_dir = "/srv/notes"`: the markdown directory stays `<home>/algo/markdown` | Decode the file when it was read, stop on a file that does not decode, and keep the defaults when there is no file | high; not executed | Config.LoadAsWritten | Config.Load |

`Edit.TagsUndoRetitle` exhibits the edit discrepancy for every edit with a
tag list. The `Intended` tag step keeps the row as edited, and
`Edit.IntendedKeepsRetitle` proves the given title and difficulty are saved.
Every other edit lemma holds for both tag steps.

`Config.FileIgnoredExample` exhibits the discrepancy for every absolute
directory a file can set. `Config.LoadHonoursFile` proves the intended
behaviour: each key the file sets is used.
