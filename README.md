# Code analysis crew: report building and crew assembly

This project is a Dafny model of the deterministic core of `codesystem`. That tool builds a
crew of language-model agents from two YAML configurations (agents and tasks), runs it on a
source file or on every code file of a cloned repository, and saves the crew's result as a
Word report. The model covers the decisions the program takes on the data it handles
(the I/O around them is listed under "Left out"):

- **Crew assembly** (`CrewBuild`, from `Codesystem.crew()`):
  - one agent per agent entry;
  - one task per task entry, in declaration order;
  - each declared dependency is resolved against the tasks built so far (forward and self
    references are silently dropped);
  - `task_outputs` maps task names to tasks;
  - a missing configuration field or an unknown agent name raises a `KeyError`, modelled as
    `BuildError`.
- **The run** (`Kickoff`, from `Codesystem.kickoff`): the eight-key run context, and the
  decision to save the result only when it is non-empty.
- **The free-text report** (`SaveReport`, `ReportFile`, from `save_report`):
  - the content is split at every `"\n# "`;
  - the first chunk becomes a paragraph;
  - each later non-blank chunk becomes a level-1 heading (its first line) and, when it has a
    line feed, a paragraph (the rest);
  - the file name is `<sanitised stem>_analysis_<YYYYmmdd_HHMMSS>.docx`, or
    `<base>_<timestamp>.docx` without a file name.
- **The five-section report** (`FixedReport`, `TextClean`, from `prepare_inputs`,
  `clean_text` and `generate_docx_report`): a title, a file line, and five headed sections
  whose text goes through `clean_text`.
- **Input selection** (`SourceSelect`, `PurePath`): the extension test `get_code_files`
  applies to each file, and the URL-scheme test that picks repository or file mode.

Python's own behaviour is modelled where the program depends on it:

- `str.strip`, `str.isspace`, `str.split`, `str.split(sep, 1)`;
- `re.sub` for the four patterns used (main.py:72-74 and crew.py:36);
- `pathlib`'s `name`, `suffix` and `stem`;
- `strftime("%Y%m%d_%H%M%S")`;
- `dict.get` with a default.

Configuration dictionaries are ordered sequences of `(name, entry)` pairs. Their fields are
`Option`s, because a field may be missing from the YAML. A document is modelled as the
sequence of `Block`s (title, heading, paragraph) that python-docx is asked to add. Task
dependencies and `task_outputs` values are positions in the crew's task list, which stand
for the `Task` objects the source stores.

Three behaviours of the code are worth stating plainly:

- **`clean_text` is idempotent on every text without `\r`, but not on every text with
  one.** It deletes carriage returns after it collapses line feeds. So `"a\n\r\nb"` cleans
  to `"a\n\nb"`, and that cleans to `"a\nb"`. Idempotence is proved for input without `\r`
  (`TextClean.CleanTextIdempotent`); the counterexample is
  `TextClean.CleanTextNotIdempotentWithCarriageReturn`.
- **A section without a line feed becomes a heading with no paragraph.** `save_report` adds a
  paragraph only when `split('\n', 1)` yields a second part (`SaveReport.SectionBlocksShape`).
- **A missing file name prints as `None`.** `generate_docx_report` writes `File: None` when
  `file_name` is missing, since its `get` has no default.

## Model

| member | source | states |
|---|---|---|
| PyStr.Strip | src/codesystem/main.py:78 | `strip()` leaves no whitespace at either end and does not change a string that has none; that only edge whitespace is removed is `PyStr.StripSlice` |
| PyStr.StripSlice | src/codesystem/main.py:78 | the result of `strip()` is the input with a whitespace-only prefix and a whitespace-only suffix removed, and it has no whitespace at either end (with `Strip`), so exactly the edge whitespace goes |
| PyStr.StripKeepsNoPair | src/codesystem/main.py:78 | stripping cannot create a pair of adjacent characters that the input lacks |
| PyStr.StripKeepsAbsent | src/codesystem/main.py:78 | stripping cannot introduce a character that the input lacks |
| PyStr.IsSpace | src/codesystem/crew.py:55 | `str.isspace` for one character; what it decides is stated by `PyStr.Strip`, `PyStr.StripSlice` and `PyStr.BlankIffStripsToEmpty` |
| PyStr.BlankIffStripsToEmpty | src/codesystem/crew.py:55 | `section.strip()` is empty exactly when every character of the section is whitespace |
| PyStr.Split | src/codesystem/crew.py:48 | `split(sep)` always yields at least one piece |
| PyStr.Count | src/codesystem/crew.py:48 | non-overlapping occurrences of a separator, counted left to right; tied to `split` by `PyStr.SplitLength` |
| PyStr.Join | src/codesystem/crew.py:48 | `sep.join(parts)`; the inverse of `split` by `PyStr.SplitJoin` |
| PyStr.SplitLength | src/codesystem/crew.py:48 | `split(sep)` yields one more piece than there are non-overlapping occurrences of `sep` |
| PyStr.SplitJoin | src/codesystem/crew.py:48 | joining the pieces with `sep` gives back the input |
| PyStr.SplitFirstIsPrefix | src/codesystem/crew.py:48-51 | the first piece, the one added as the lead paragraph, is a prefix of the content |
| PyStr.SplitPiecesFree | src/codesystem/crew.py:48 | no piece contains the separator |
| PyStr.SplitWithoutSeparator | src/codesystem/main.py:35 | a string without the separator is a single piece |
| PyStr.SplitAppendPiece | src/codesystem/main.py:35 | joining a separator-free name onto a path adds exactly that piece to the split |
| PyStr.SplitOnce | src/codesystem/crew.py:57 | `split('\n', 1)` as a head and an optional tail; stated by `PyStr.SplitOnceParts` |
| PyStr.SplitOnceParts | src/codesystem/crew.py:57 | `split('\n', 1)`: the head holds no line feed; there is a tail exactly when the text has a line feed; head, line feed and tail rebuild the text; with no tail the head is the whole text |
| TextClean.ReplaceEscape | src/codesystem/main.py:72-73 | `re.sub(r'\\c', rep, s)`, scanning left to right; its own contract says only that a non-empty text's first character is kept or becomes the replacement's first; the rewrite itself is stated by `TextClean.ReplaceEscapeCases` |
| TextClean.ReplaceEscapeWithoutEscape | src/codesystem/main.py:72-73 | a text in which backslash-`c` never occurs is returned unchanged |
| TextClean.ReplaceEscapeKeepsPlainPrefix | src/codesystem/main.py:72-73 | a leading stretch without a backslash is copied unchanged, whatever follows it |
| TextClean.ReplaceEscapeCases | src/codesystem/main.py:72-73 | the rewrite case by case: backslash-free text is copied; a final backslash is copied; after a backslash-free prefix, backslash-`c` becomes `rep` and scanning resumes after it, and a backslash before any other character is copied and scanning resumes at that character |
| TextClean.ReplaceLiteralNewlines | src/codesystem/main.py:72 | `re.sub(r'\\n', ' ', text)`: the escape rewrite with `n` and a space |
| TextClean.ReplaceLiteralTabs | src/codesystem/main.py:73 | `re.sub(r'\\t', '    ', text)`: the escape rewrite with `t` and four spaces |
| TextClean.ReplaceEscapeRemoves | src/codesystem/main.py:72-73 | after `re.sub(r'\\n', ' ')` no backslash-`n` is left, and after the tab rewrite neither escape is left, even where a replacement creates a new backslash pair |
| TextClean.ReplaceEscapeKeepsAbsent | src/codesystem/main.py:72-73 | the escape rewrites introduce no character that is absent from both the text and the replacement |
| TextClean.CollapseNewlines | src/codesystem/main.py:74 | after `re.sub(r'\n+', '\n')` no two line feeds are adjacent; text already without such a pair is unchanged; the first character is kept; that each run becomes exactly one line feed is `TextClean.CollapsePairOfLineFeeds` |
| TextClean.CollapsePairOfLineFeeds | src/codesystem/main.py:74 | wherever two line feeds stand together, collapsing gives the same text as with one of them, so every run of line feeds becomes one |
| TextClean.CollapseKeepsNoPair | src/codesystem/main.py:74 | collapsing line feeds creates no adjacent pair that the input lacks |
| TextClean.CollapseKeepsAbsent | src/codesystem/main.py:74 | collapsing line feeds introduces no new character |
| TextClean.DeleteCarriageReturns | src/codesystem/main.py:75 | the result has no carriage return, and text without one is unchanged; that every other character is kept in order is `TextClean.DeleteCarriageReturnsPieces` |
| TextClean.DeleteCarriageReturnsPieces | src/codesystem/main.py:75 | `replace('\r', '')` works character by character: the result for joined texts is the joined results, a `\r` becomes nothing and any other character stays |
| TextClean.CleanText | src/codesystem/main.py:66-78 | the five steps of `clean_text` in their order; stated by the `CleanText` lemmas below |
| TextClean.CleanTextShape | src/codesystem/main.py:66-78 | `clean_text` never returns a carriage return or outer whitespace |
| TextClean.CleanTextIsClean | src/codesystem/main.py:66-78 | on input without `\r`, the result has no escape, no two adjacent line feeds (a line of spaces or tabs may remain), no `\r` and no outer whitespace |
| TextClean.CleanTextFixpoint | src/codesystem/main.py:66-78 | text already in that normal form is returned unchanged |
| TextClean.CleanTextIdempotent | src/codesystem/main.py:66-78 | on input without `\r`, cleaning twice equals cleaning once |
| TextClean.CleanTextWithoutBackslash | src/codesystem/main.py:72-78 | on input without backslashes, only the line-feed, carriage-return and strip steps act |
| TextClean.DeleteBetweenLineFeeds | src/codesystem/main.py:75 | deleting the `\r` of `x\n\r\ny` leaves two adjacent line feeds |
| TextClean.CollapseBlankLine | src/codesystem/main.py:74 | two adjacent line feeds between other characters collapse to one |
| TextClean.CleanTextNotIdempotentWithCarriageReturn | src/codesystem/main.py:74-75 | for visible `x`, `y`: `clean_text("x\n\r\ny")` is `"x\n\ny"`, and cleaning that again gives `"x\ny"` |
| TextClean.PlaceholderIsClean | src/codesystem/main.py:96-99 | cleaning the placeholder `No output available` returns it unchanged |
| FixedReport.PrepareInputs | src/codesystem/main.py:52-64 | exactly seven keys; the code and path are passed through; each analysis entry is the agent's output or the placeholder; the test output is read from `code_test_output` but stored under `code_test_coverage` |
| FixedReport.FileLine | src/codesystem/main.py:92 | the text `File: <file_name>`, or `File: None` without one; it is the second block by `FixedReport.ReportLayout` |
| FixedReport.SectionText | src/codesystem/main.py:99-111 | a section's paragraph text; stated by `FixedReport.SectionTextIsCleanedLookup` |
| FixedReport.SectionTextIsCleanedLookup | src/codesystem/main.py:102 | a section's paragraph is `clean_text(inputs.get(key, 'No output available'))` |
| FixedReport.ReportBlocks | src/codesystem/main.py:81-111 | the blocks of the five-section report; stated by `FixedReport.ReportLayout` and `FixedReport.GenerateDocxReport` |
| FixedReport.ReportLayout | src/codesystem/main.py:81-111 | twelve blocks: the title `Generated Report`, the file line, then for each of the five sections in order a level-1 heading and its cleaned text |
| FixedReport.GenerateDocxReport | src/codesystem/main.py:81-111 | the blocks added, one call at a time, are exactly that layout, for every input dictionary |
| FixedReport.MissingSectionShowsPlaceholder | src/codesystem/main.py:96-111 | a section whose key is missing shows the placeholder |
| FixedReport.PreparedSectionText | src/codesystem/main.py:59-63 | in a report built from `prepare_inputs`, the Architecture section always shows the placeholder, and every other section shows its agent's output, cleaned |
| FixedReport.PreparedFileLine | src/codesystem/main.py:58 | the file line of such a report names the analysed path |
| FixedReport.PrepareInputsCorrected | src/codesystem/main.py:52-64 | with the test output stored under `code_test_output`, every section key holds its agent's output or the placeholder |
| FixedReport.CorrectedSectionText | src/codesystem/main.py:52-64 | with the corrected key, every one of the five sections shows its agent's output |
| PurePath.LastIndexOf | src/codesystem/crew.py:34 | `rfind`: `-1`, or the index of the last occurrence of the character |
| PurePath.Components | src/codesystem/main.py:35 | path components are non-empty and never `.`, and each is a piece of the path |
| PurePath.ComponentsPieces | src/codesystem/main.py:35 | components are taken piece by piece in order: those of joined piece lists are the joined components, and one piece is kept unless it is empty or `.` |
| PurePath.Name | src/codesystem/crew.py:34 | `PurePosixPath(p).name`, the last component or `''`; stated by `PurePath.NameIsComponent` and `PurePath.NameOfChild` |
| PurePath.Suffix | src/codesystem/main.py:36 | `.suffix` of a name; stated by `PurePath.StemSuffixSplit`, `PurePath.SuffixOfDotted` and `PurePath.DotFileHasNoSuffix` |
| PurePath.Stem | src/codesystem/crew.py:34 | `.stem` of a name; stated by `PurePath.StemSuffixSplit` and `PurePath.SuffixOfDotted` |
| PurePath.NameIsComponent | src/codesystem/crew.py:34 | `Path(p).name` holds no `/` and is never `.` |
| PurePath.StemSuffixSplit | src/codesystem/crew.py:34 | stem followed by suffix is the name; the suffix is empty or a dot followed by characters that are not dots; a non-empty name has a non-empty stem |
| PurePath.SuffixOfDotted | src/codesystem/main.py:36 | `stem + ext` with a dot-led extension has exactly that suffix and stem |
| PurePath.DotFileHasNoSuffix | src/codesystem/main.py:36 | a hidden file such as `.py` has no suffix |
| PurePath.ComponentsAppend | src/codesystem/main.py:35 | appending a proper entry name appends one component |
| PurePath.NameOfChild | src/codesystem/main.py:35 | `(Path(root) / file).name` is `file` |
| SourceSelect.IsCodeFile | src/codesystem/main.py:35-36 | the extension test applied to each walked file; stated by `SourceSelect.CodeFileInDirectory` |
| SourceSelect.ExtensionsAreSuffixes | src/codesystem/main.py:30 | each accepted extension is a dot followed by characters that are not dots |
| SourceSelect.WalkedFileSelected | src/codesystem/main.py:33-37 | any entry name found under any directory is selected exactly when the suffix of that name is one of the twelve extensions; a name without a dot is never selected |
| SourceSelect.CodeFileInDirectory | src/codesystem/main.py:33-37 | a file `<stem><ext>` with a non-empty stem and a dot-led extension without further dots is selected exactly when `ext` is one of the twelve |
| SourceSelect.HiddenFileSkipped | src/codesystem/main.py:36 | a file named just `.py` is not selected |
| SourceSelect.PythonFileSelected | src/codesystem/main.py:36 | `main.py` is selected |
| SourceSelect.ExtensionCaseMatters | src/codesystem/main.py:36 | `main.PY` is not selected |
| SourceSelect.InputSource | src/codesystem/main.py:173-176 | the argument is a repository URL exactly when it starts with one of `http://`, `https://`, `git://`, and it is passed on unchanged |
| SourceSelect.IsRepositoryUrl | src/codesystem/main.py:173 | `startswith(('http://', 'https://', 'git://'))`; stated by `SourceSelect.InputSource` |
| SourceSelect.SchemeDecidesSource | src/codesystem/main.py:173-176 | each scheme followed by anything is cloned as that repository URL; an argument with none of the schemes is read as that file path |
| SourceSelect.SchemeExamples | src/codesystem/main.py:173 | `https://…` is cloned; `HTTP://…`, `ftp://…` and `git@…` are read as file paths |
| ReportFile.Digits | src/codesystem/crew.py:29 | zero-padded formatting yields exactly `width` decimal digits |
| ReportFile.DigitsValue | src/codesystem/crew.py:29 | the value of `n` digits is below `10^n` |
| ReportFile.DigitsRoundTrip | src/codesystem/crew.py:29 | a number below `10^width` is read back from its zero-padded digits |
| ReportFile.DigitsOfValue | src/codesystem/crew.py:29 | a digit string is the zero-padded form of its value |
| ReportFile.Timestamp | src/codesystem/crew.py:29 | `%Y%m%d_%H%M%S` is 15 characters: eight digits, `_`, six digits |
| ReportFile.TimestampRoundTrip | src/codesystem/crew.py:29 | parsing the timestamp gives back the date and time |
| ReportFile.TimestampFields | src/codesystem/crew.py:29 | each field of a timestamp-shaped string is the zero-padded form of its value |
| ReportFile.ParseTimestampExact | src/codesystem/crew.py:29 | every string that parses is the timestamp of what it parses to |
| ReportFile.Sanitize | src/codesystem/crew.py:36 | `re.sub(r'[^\w\-_]', '_', s)`: same length; each allowed character is kept and every other becomes `_` |
| ReportFile.SanitizeIdempotent | src/codesystem/crew.py:36 | sanitising changes no string of allowed characters, so sanitising twice equals sanitising once |
| ReportFile.ReportFileName | src/codesystem/crew.py:29-39 | the file name `save_report` builds; stated by `ReportFile.ReportFileNameForms` |
| ReportFile.ReportFileNameForms | src/codesystem/crew.py:29-39 | the name ends in a parseable timestamp and `.docx`; it is `<base>_<ts>.docx` without a file name; with one, it is exactly the sanitised stem (as long as the stem, of allowed characters only), `_analysis_`, the 15-character timestamp and `.docx`, so 30 characters longer than the stem |
| ReportFile.ReportBaseNonEmpty | src/codesystem/crew.py:32-36 | the sanitised base is empty exactly when the path has no last component |
| ReportFile.ReportFileNameExample | src/codesystem/crew.py:32-37 | `<dir>/app.py` gives `app_analysis_<ts>.docx` |
| ReportFile.AppStem | src/codesystem/crew.py:34 | the stem of `<dir>/app.py` is `app` |
| SaveReport.SectionBlocks | src/codesystem/crew.py:55-61 | the blocks one later chunk adds; stated by `SaveReport.SectionBlocksShape` |
| SaveReport.SectionBlocksShape | src/codesystem/crew.py:55-61 | a blank chunk adds nothing; any other adds a level-1 heading (its first line); it adds a paragraph (the rest) exactly when the chunk has a line feed; heading, line feed and paragraph rebuild the chunk |
| SaveReport.LaterBlocksAppend | src/codesystem/crew.py:54-61 | one more chunk appends that chunk's blocks |
| SaveReport.ReportBlocks | src/codesystem/crew.py:45-61 | the blocks of the free-text report; stated by `SaveReport.ReportLayout` and computed by `SaveReport.LayOutReport` |
| SaveReport.LayOutReport | src/codesystem/crew.py:45-61 | the loop builds the title, the lead paragraph and every later chunk's blocks |
| SaveReport.AddSection | src/codesystem/crew.py:55-61 | one loop pass appends that chunk's blocks |
| SaveReport.SaveReport | src/codesystem/crew.py:27-64 | the report goes to `<output dir>/<report file name>` and holds the split layout |
| SaveReport.LaterBlocksStartWithHeading | src/codesystem/crew.py:58-59 | the blocks of the later chunks, when there are any, start with a heading |
| SaveReport.SectionTextsOfLaterBlocks | src/codesystem/crew.py:54-61 | when no later chunk is blank, reading the blocks back gives every chunk exactly |
| SaveReport.ReportLayout | src/codesystem/crew.py:45-61 | title and lead paragraph first; there are `count("\n# ") + 1` chunks; when no later chunk is blank, the lead chunk and the read-back sections, joined with `"\n# "`, rebuild the content |
| SaveReport.BlankSectionsVanish | src/codesystem/crew.py:55 | a blank chunk adds nothing |
| CrewBuild.ZipMapKeys | src/codesystem/crew.py:72-73 | the dictionary's keys are exactly the stored names |
| CrewBuild.ZipMapAt | src/codesystem/crew.py:72-73 | with distinct names, each name finds the value stored with it |
| CrewBuild.ZipMapSnoc | src/codesystem/crew.py:73 | storing one more entry updates the dictionary at that key |
| CrewBuild.NamesPrefix | src/codesystem/crew.py:72 | one more entry adds its name at the end |
| CrewBuild.BuildAgent | src/codesystem/crew.py:73-78 | one agent from an entry's role, goal and backstory, or the `KeyError` of the first missing one; stated by `CrewBuild.BuildAgentsSpec` |
| CrewBuild.BuildAgents | src/codesystem/crew.py:71-78 | on success, one agent per entry |
| CrewBuild.KnownDeps | src/codesystem/crew.py:87-90 | the declared dependencies already registered, in order; stated by `CrewBuild.KnownDepsAppend` and `CrewBuild.KnownDepsOne` |
| CrewBuild.BuildTask | src/codesystem/crew.py:86-98 | one task from an entry, or its `KeyError`; stated by `CrewBuild.BuildTasksSpec` and `CrewBuild.BuildTasksError` |
| CrewBuild.TaskIndex | src/codesystem/crew.py:100 | `task_outputs`: each task name mapped to its position; stated by `CrewBuild.TaskIndexNames`, `CrewBuild.TaskIndexAt` and `CrewBuild.TaskIndexBelow` |
| CrewBuild.BuildTasks | src/codesystem/crew.py:81-100 | on success, one task per entry |
| CrewBuild.AgentFailureStays | src/codesystem/crew.py:72-78 | the first `KeyError` in the agent loop ends it |
| CrewBuild.TaskFailureStays | src/codesystem/crew.py:85-100 | the first `KeyError` in the task loop ends it |
| CrewBuild.TaskIndexSnoc | src/codesystem/crew.py:100 | registering a task adds its name, mapped to its position |
| CrewBuild.CollectDependencies | src/codesystem/crew.py:86-90 | the inner loop resolves exactly the declared names already registered, in order |
| CrewBuild.CreateAgents | src/codesystem/crew.py:71-78 | the agent loop yields the agent list or the first error, and `agents` maps each name to its agent |
| CrewBuild.MakeTask | src/codesystem/crew.py:86-98 | one task-loop pass: the entry's task or its `KeyError` |
| CrewBuild.CreateTasks | src/codesystem/crew.py:81-100 | the task loop yields the task list or the first error, and `task_outputs` maps each name to its position |
| CrewBuild.BuildCrew | src/codesystem/crew.py:69-109 | `crew()` returns the crew and `task_outputs`, or the first `KeyError` |
| CrewBuild.BuildAgentsSpec | src/codesystem/crew.py:71-78 | success exactly when every entry has role, goal and backstory; then agent `k` is made of entry `k`'s fields; otherwise the error names the first incomplete entry and its first missing field |
| CrewBuild.DependenciesAtPrefix | src/codesystem/crew.py:86-90 | a task's dependencies depend only on the entries before it |
| CrewBuild.BuildTasksSpec | src/codesystem/crew.py:85-100 | success exactly when every entry has a description and names a built agent; then task `k` has entry `k`'s description, expected output, agent and resolved dependencies |
| CrewBuild.BuildTasksError | src/codesystem/crew.py:92-95 | on failure, the error is the first unready entry's: missing `description`, then missing `agent`, then an unknown agent name |
| CrewBuild.TaskIndexBelow | src/codesystem/crew.py:100 | every registered position belongs to a task already built |
| CrewBuild.TaskIndexNames | src/codesystem/crew.py:100 | a name is registered exactly when a task of that name was built |
| CrewBuild.TaskIndexAt | src/codesystem/crew.py:100 | with distinct names, each task name maps to its own position |
| CrewBuild.KnownDepsAppend | src/codesystem/crew.py:88-90 | resolving a list part by part resolves the whole, so order and repeats are kept |
| CrewBuild.KnownDepsOne | src/codesystem/crew.py:89-90 | one name resolves to its task when registered, and to nothing otherwise |
| CrewBuild.UnknownDependencyDropped | src/codesystem/crew.py:89 | a name not yet registered contributes nothing |
| CrewBuild.KnownDepsBelow | src/codesystem/crew.py:88-90 | resolved dependencies are bounded by the registered positions |
| CrewBuild.DependenciesPointBack | src/codesystem/crew.py:85-100 | task `k` depends only on tasks before `k`, so the dependencies have no cycle |
| CrewBuild.LaterNameIgnored | src/codesystem/crew.py:88-90 | a dependency on a name that no earlier task has (a later task or the task itself) is ignored |
| CrewBuild.CrewOf | src/codesystem/crew.py:69-109 | what `crew()` returns; stated by `CrewBuild.CrewSpec` and computed by `CrewBuild.BuildCrew` |
| CrewBuild.CrewSpec | src/codesystem/crew.py:69-109 | `crew()` succeeds exactly when all entries are complete and name configured agents, and agent entries are checked first; the crew then has one agent and one task per entry, in order; each task's agent is the one its entry names; dependencies point only backwards; `task_outputs` maps names to positions |
| Kickoff.InitialInputs | src/codesystem/crew.py:117-126 | the run context has exactly the eight keys; code and file name come from the inputs or are `''`; the six output slots are `''` |
| Kickoff.OtherInputsIgnored | src/codesystem/crew.py:117-126 | input keys other than the code and file name do not reach the crew |
| Kickoff.RunKickoff | src/codesystem/crew.py:111-148 | a crew-building error propagates; otherwise the result is the crew's run on the initial context; a report is saved exactly when the result is non-empty, named from the input `file_name` with base `code_analysis_report`, and holds the result's split layout |
| Kickoff.KickoffReportNames | src/codesystem/crew.py:142-143 | a run on `<dir>/app.py` saves `app_analysis_<ts>.docx`; a run without a file name saves `code_analysis_report_<ts>.docx` |

## Findings

| source | as written | input that shows it | evidently intended | confidence | as-written member | corrected member |
|---|---|---|---|---|---|---|
| src/codesystem/main.py:62 | `prepare_inputs` stores the test agent's output under `code_test_coverage`, but `generate_docx_report` (main.py:108) reads `code_test_output` | any agent outputs, e.g. `{"code_test_output": "42 tests"}`: the Architecture section shows `No output available` | store it under `code_test_output`, so that the section shows the test output | medium, not executed | FixedReport.PreparedSectionText | FixedReport.CorrectedSectionText |

The model keeps `FixedReport.PrepareInputs` as written. `FixedReport.PrepareInputsCorrected` is
the corrected form. Nothing in the repository composes the two functions, so no other member
depends on the choice.

## Left out

- The crew's execution (`crew.kickoff`) is an opaque language-model call. `Kickoff.RunKickoff`
  takes it as the parameter `run`. `str(result)` for a non-string result is not modelled: the
  result is a string.
- Loading YAML (`_load_yaml`) is left out; configurations arrive parsed. Creating the output
  directory, writing the `.docx` file and every `print` are left out too.
- The clock is not modelled: `datetime.now()` is the parameter `now`. The output directory is
  the parameter `outputDir`.
- Cloning, walking, reading, deleting the temporary clone, and the `run` driver with
  `sys.argv` are I/O. Only the decisions they apply are modelled: `SourceSelect.IsCodeFile`
  per walked file, and `SourceSelect.InputSource`. The walk's order is left to `os.walk`. In
  repository mode, `run` returns `result`, which is unbound when no file was read; that is not
  modelled.
- python-docx internals are left out; a document is its sequence of blocks.
- Dynamic typing is left out:
  - every configuration field and input value is a string;
  - `generate_docx_report`'s `hasattr(code_analysis, 'result')` branch (main.py:97-98) is not
    modelled;
  - a `file_name` of `None` is not modelled.
- Crewai's own validation of `Agent`, `Task` and `Crew` is left out, as are the
  `verbose=True` flags. Task dependencies are positions in the task list, not `Task` objects.
- Entry names in a configuration are distinct, as the keys of a Python dictionary are. Lemmas
  that need this say so in `requires`.
- ReportFile.Sanitize: `\w` is modelled as ASCII letters, digits and `_`. Python's Unicode
  `\w` also keeps non-ASCII letters and digits, which the model replaces by `_`.
- ReportFile.Timestamp: only years 1000-9999 are modelled (`DateTime.Valid`), where `%Y` has
  four digits.
- PyStr.IsSpace follows `str.isspace` for the whitespace code points Python recognises. The
  model assumes no surrogate or unassigned code point needs special handling.
- `clean_text`'s `str(text)` conversion of a non-string input is not modelled.
- Paths follow POSIX `PurePosixPath` rules: `/` is the only separator. On Windows, `pathlib.Path`
  also splits at `\` and knows drives, which the model does not.
- A `KeyError` carries only the missing key (or the unknown agent name). `BuildError` also names
  the configuration entry, so the model's error says more than Python's.
- `run`'s skip of files whose content is empty or unreadable (`if code_content`) follows file
  reading, which is I/O, and is not modelled.
- PyStr.Strip: its own contract states only that the result is stripped and that stripped text
  is unchanged; that exactly the edge whitespace is removed is stated by `PyStr.StripSlice`.
- TextClean.ReplaceEscape: its own contract states only the first character; the rewrite is
  stated by `TextClean.ReplaceEscapeCases` and `TextClean.ReplaceEscapeWithoutEscape`.
- TextClean.CollapseNewlines: its own contract does not say that each run becomes exactly one
  line feed; `TextClean.CollapsePairOfLineFeeds` does.
- TextClean.DeleteCarriageReturns: its own contract does not say that other characters are kept
  in order; `TextClean.DeleteCarriageReturnsPieces` does.
- PurePath.Components: its own contract does not fix the order or the multiplicity of the
  components; `PurePath.ComponentsPieces` does.
