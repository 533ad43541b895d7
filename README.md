# Policy hooks for a coding assistant, in Dafny

The hooks modelled here are seven small Python programs. Each one runs before or after an assistant uses a tool. Each reads one JSON event from standard input: the tool's name and its parameters. Each prints a decision, `approve` (sometimes with an advisory note) or `block` with a reason, and exits with status 1 exactly when it blocks. Input that is not JSON is approved with a note that names the decoder error.

| module | hook | what it decides |
|---|---|---|
| `Hooks` | all | the event, the decision, the exit status and the answer to undecodable input |
| `SearchCommands` | `search_commands_hook.py` | blocks shell commands that start with `grep` (outside a pipeline), `find … -name`, `ack`, `ag` or `locate`, and points to `rg` |
| `GitCommitStandards` | `git_commit_standards_hook.py` | blocks commits that mention the assistant or have a short message outside the conventional-commit format, pushes naming `main`, `master` or `production`, and force pushes |
| `PythonFileLimits` | `python_file_limits_hook.py` | blocks Python writes over 500 lines or with functions over 50 and classes over 100 lines, blocks Edits over 50 lines, and warns on reads of long files |
| `CodeQualityReminder` | `code_quality_reminder_hook.py` | keeps a session record of the Python files changed, and from the third file on approves with a lint/type-check/test reminder |
| `TestingStandards` | `testing_standards_hook.py` | enforces test file placement and naming, reminds about TDD, requires `uv run` for pytest, and refuses `unittest` |
| `UvPackageManagement` | `uv_package_management_hook.py` | refuses hand edits of dependencies in `pyproject.toml`, `pip install`, `poetry`, `python`/`python3`/`pytest`/`mypy`/`ruff` outside `uv run` or `venv_linux`, and `python -m venv` |
| `TestReminder` | `test_reminder_hook.py` | after a change to a Python file, names its test file or suggests one; it never blocks |

`Strings` models the pieces of Python's `re` and `str` used by the hooks:
- runs of character classes, matches at a position, word boundaries and substring search;
- ASCII `lower()`;
- `"\n".join` and `split`;
- decimal rendering of integers.

`Paths` models `pathlib.PurePosixPath`:
- parsing a string into a root and its parts, and rendering a path back;
- `name`, `parent` and `/`;
- `os.path.basename`.

Each regular expression is a predicate that says some match exists at some positions, written over those character-class runs. Each hook's `main()` is a function or method `Decide` from the input (plus the state or the outside facts it reads) to a `Decision`.

Reads of the outside world become parameters:
- the Python syntax tree that `ast.parse`/`ast.walk` yields for the written content is `parse: ParseResult`;
- the file an Edit or Read looks at is `disk: Option<string>`;
- the paths that exist are `existing: set<Path>`;
- the clock is `now: int` seconds;
- whether the session file could be written is `written: bool`.

The session record of the quality reminder is the field of a `SessionStore` object, and `Handle` updates it in place.

A few notes on how some lemmas are stated:
- `SearchCommands.FindNameScenarioBlocked`, `FindTypeScenarioApproved` and `RipgrepApproved` hold for every pattern or argument string after the fixed prefix, not for one literal example.
- `GitCommitStandards.FixAuthAccepted` builds its message with `Header("fix", Some("auth"), …)`, which renders to `fix(auth): resolve token expiry bug`.
- `CodeQualityReminder.FoundDepth` is a lemma with an out-parameter: the level at which the root was found.
- `Paths` keeps a root of exactly two leading slashes as `//`, as `PurePosixPath` does; one slash, or three and more, give the root `/`.

## Model

| member | source | states |
|---|---|---|
| Hooks.ExitStatus | hooks/search_commands_hook.py:38-92 | the status is 0 or 1, and it is 1 exactly when the decision blocks |
| Hooks.ParseFailure | hooks/search_commands_hook.py:18-25 | undecodable input is approved, with a note |
| SearchCommands.CheckCommand | hooks/search_commands_hook.py:38-92 | an approval carries no note; a block happens only to a command that starts with one of the search tools |
| SearchCommands.Decide | hooks/search_commands_hook.py:18-92 | only a Bash command that starts with a search tool is blocked; an approval has a note exactly when the input was not JSON |
| SearchCommands.NonBashApproved | hooks/search_commands_hook.py:30-33 | every tool other than Bash is approved without a note |
| SearchCommands.PipeOnFirstLine | hooks/search_commands_hook.py:38 | the `.*\|` lookahead after `grep` holds exactly when a `\|` appears on the command's first line |
| SearchCommands.GrepBlockedIff | hooks/search_commands_hook.py:38-50 | a command `grep` followed by a non-word character is blocked, with the grep reason, exactly when its first line has no pipe |
| SearchCommands.GrepOneLineBlocked | hooks/search_commands_hook.py:38-50 | a one-line `grep` command without a pipe is blocked with the grep reason |
| SearchCommands.GrepScenarioBlocked | hooks/search_commands_hook.py:38-50 | `grep 'foo' *.py` is blocked with the grep reason |
| SearchCommands.MatcherFitsPattern | hooks/search_commands_hook.py:53 | a command the `find` matcher accepts has the shape `find`, spaces, a word, spaces, `-name` at a word boundary |
| SearchCommands.PatternFitsMatcher | hooks/search_commands_hook.py:53 | every command of that shape is accepted by the matcher |
| SearchCommands.FindByNameMatchesPattern | hooks/search_commands_hook.py:53 | the matcher and the shape agree on every command |
| SearchCommands.FindCommandChain | hooks/search_commands_hook.py:53-92 | a command starting with `find` is blocked with the find reason exactly when it matches, and is otherwise approved |
| SearchCommands.FindBlockedIff | hooks/search_commands_hook.py:53-64 | for `find <path> <x>`, the command is blocked exactly when `<x>` starts with `-name` at a word boundary |
| SearchCommands.FindNameScenarioBlocked | hooks/search_commands_hook.py:53-64 | `find . -name <pattern>` is blocked with the find reason, whatever the pattern |
| SearchCommands.FindTypeScenarioApproved | hooks/search_commands_hook.py:53-64 | `find . -type …` is approved |
| SearchCommands.AckAgLocateBlockedIff | hooks/search_commands_hook.py:67-88 | a command starting with `ack`, `ag` or `locate` is blocked exactly when the tool name ends at a word boundary, with the ack/ag reason or the locate reason |
| SearchCommands.LaterSearchToolApproved | hooks/search_commands_hook.py:38-92 | a command whose first character cannot start a search tool is approved, even if a search tool follows later (e.g. after `;` or a pipe) |
| SearchCommands.RipgrepApproved | hooks/search_commands_hook.py:90-92 | every `rg` command is approved |
| GitCommitStandards.CommitRule | hooks/git_commit_standards_hook.py:38-92 | the commit rules give a reason only for a `git commit` command |
| GitCommitStandards.CheckCommand | hooks/git_commit_standards_hook.py:38-125 | a command is blocked exactly when the commit rules or the push rules give a reason; an approval carries no note |
| GitCommitStandards.Decide | hooks/git_commit_standards_hook.py:18-125 | only Bash commands are blocked; an approval has a note exactly when the input was not JSON |
| GitCommitStandards.NonBashApproved | hooks/git_commit_standards_hook.py:30-33 | every tool other than Bash is approved without a note |
| GitCommitStandards.AiRuleIff | hooks/git_commit_standards_hook.py:40-62 | a commit is refused for mentioning the assistant exactly when its lowered text contains a prohibited phrase; this check comes before the format check |
| GitCommitStandards.PhraseAnywhereBlocksCommit | hooks/git_commit_standards_hook.py:49-62 | a commit with a prohibited phrase anywhere in its text, in any case, is blocked with that reason |
| GitCommitStandards.GeneratedByClaudeProhibited | hooks/git_commit_standards_hook.py:40-49 | `generated by claude` is a prohibited phrase, and `Generated by Claude` lowers to it |
| GitCommitStandards.ExtractMessageIsLeftmostMatch | hooks/git_commit_standards_hook.py:65-69 | the message extracted is the quoted text of the leftmost `-m` match; nothing is extracted exactly when no match exists |
| GitCommitStandards.ExtractedMessageHasFlag | hooks/git_commit_standards_hook.py:65-69 | a message is extracted only from a command containing `-m` |
| GitCommitStandards.FormatRuleIff | hooks/git_commit_standards_hook.py:65-92 | a commit without a prohibited phrase is refused exactly when its `-m` message breaks the header format and is shorter than 10 characters, and then with the short-message reason |
| GitCommitStandards.HeaderRenderValid | hooks/git_commit_standards_hook.py:72-75 | every `type(scope): subject` or `type: subject` built from a listed type, a non-empty scope and a subject follows the format |
| GitCommitStandards.HeaderValidLength | hooks/git_commit_standards_hook.py:72-75 | a message in the format has at least 6 characters |
| GitCommitStandards.FixBugRejected | hooks/git_commit_standards_hook.py:72-92 | `fix bug` breaks the format and is shorter than 10 characters |
| GitCommitStandards.FixBugCommitBlocked | hooks/git_commit_standards_hook.py:65-92 | `git commit -m "fix bug"` is blocked with the short-message reason |
| GitCommitStandards.FixAuthAccepted | hooks/git_commit_standards_hook.py:72-75 | `fix(auth): resolve token expiry bug` follows the format |
| GitCommitStandards.CommitNeedsWord | hooks/git_commit_standards_hook.py:38 | a commit command contains `commit` |
| GitCommitStandards.ProtectedPushBlocked | hooks/git_commit_standards_hook.py:95-109 | a push naming `main`, `master` or `production` that no commit rule blocks is blocked with the protected-branch reason |
| GitCommitStandards.OriginPushCommand | hooks/git_commit_standards_hook.py:95 | `git push origin …` is a push command |
| GitCommitStandards.EndsInMainNamed | hooks/git_commit_standards_hook.py:97 | a command ending in `main` names a protected branch |
| GitCommitStandards.OriginDomainBlocked | hooks/git_commit_standards_hook.py:95-109 | `git push origin <w>main` is blocked with the protected-branch reason, including the plain `git push origin main` |
| GitCommitStandards.ForceFlagDetected | hooks/git_commit_standards_hook.py:112-121 | `git push … --force` not followed by `-with-lease` is a force push |
| GitCommitStandards.PushDecisionIff | hooks/git_commit_standards_hook.py:95-125 | for a command no commit rule blocks: it is blocked with the protected-branch reason exactly when it is a push naming a protected branch; otherwise it is blocked with the force-push reason exactly when it is a force push; and it is approved without a note exactly when neither holds |
| GitCommitStandards.ForcePushBlocked | hooks/git_commit_standards_hook.py:112-121 | `git push …--force…` with no line break before `--force` and no `-with-lease` after it, naming no protected branch and blocked by no commit rule, is blocked with the force-push reason |
| GitCommitStandards.LeasePushApproved | hooks/git_commit_standards_hook.py:112-125 | a command whose every `--force` is a `--force-with-lease`, naming no protected branch and blocked by no commit rule, is approved without a note |
| GitCommitStandards.LeaseOnlyNotForcePush | hooks/git_commit_standards_hook.py:112-121 | a command whose every `--force` is a `--force-with-lease` is not a force push |
| GitCommitStandards.ExitStatusIff | hooks/git_commit_standards_hook.py:77-125 | the status is 1 exactly when the commit or push rules give a reason |
| PythonFileLimits.Lines | hooks/python_file_limits_hook.py:18-20 | the split yields no lines exactly for the empty text |
| PythonFileLimits.LinesOfTerminated | hooks/python_file_limits_hook.py:18-20 | splitting lines each ended by a newline gives back exactly those lines |
| PythonFileLimits.TrailingNewlineAddsNoLine | hooks/python_file_limits_hook.py:18-20 | a final newline does not add a line |
| PythonFileLimits.CountLinesSmall | hooks/python_file_limits_hook.py:18-20 | the empty text has 0 lines and a lone newline has 1 |
| PythonFileLimits.NodeViolations | hooks/python_file_limits_hook.py:33-48 | a node yields at most one violation, and one exactly when it is a function over 50 lines or a class over 100; the violation keeps its name, line and span |
| PythonFileLimits.AnalyzePythonCode | hooks/python_file_limits_hook.py:23-50 | the loop returns the violations of the walked nodes in walk order, and none when the content does not parse |
| PythonFileLimits.ViolationsOfAppend | hooks/python_file_limits_hook.py:33-48 | the violations of two node sequences are those of each, in order |
| PythonFileLimits.ViolationsExactly | hooks/python_file_limits_hook.py:33-48 | every reported violation comes from an over-limit node, every over-limit node is reported, and there are no more reports than nodes |
| PythonFileLimits.SpansAtLimitPass | hooks/python_file_limits_hook.py:34-48 | a function of 50 lines and a class of 100 pass, and a function of 51 lines is reported with span 51 |
| PythonFileLimits.AsyncFunctionsUnchecked | hooks/python_file_limits_hook.py:34 | `async def` functions are never reported |
| PythonFileLimits.Bullets | hooks/python_file_limits_hook.py:92-101 | one bullet per violation, in order |
| PythonFileLimits.StructureReasonLines | hooks/python_file_limits_hook.py:92-101 | the structure reason is the header plus the bullets, one per line, and splitting them recovers the bullets |
| PythonFileLimits.WriteDecision | hooks/python_file_limits_hook.py:77-101 | a Write is approved without a note or blocked |
| PythonFileLimits.Decide | hooks/python_file_limits_hook.py:55-150 | only Write and Edit are blocked; a note on an approval comes only from undecodable input or a Read |
| PythonFileLimits.NonPythonApproved | hooks/python_file_limits_hook.py:72-74 | a change to a path not ending in `.py` is approved |
| PythonFileLimits.PythonWriteDecision | hooks/python_file_limits_hook.py:77-101 | a Write of a `.py` path is decided by the write rules alone |
| PythonFileLimits.LongWriteBlocked | hooks/python_file_limits_hook.py:79-89 | content over 500 lines is blocked with the line count in the reason, before the structure is looked at |
| PythonFileLimits.WriteWithinLimit | hooks/python_file_limits_hook.py:92-101 | content of at most 500 lines is blocked exactly when some function or class is too long, and then the reason lists them |
| PythonFileLimits.SyntaxErrorPasses | hooks/python_file_limits_hook.py:27-31 | content that does not parse, and is within the line limit, is approved |
| PythonFileLimits.EditBlockedIff | hooks/python_file_limits_hook.py:104-125 | an Edit of a `.py` path is blocked exactly when the file exists and the new text is over 50 lines |
| PythonFileLimits.MultiEditNeverBlocked | hooks/python_file_limits_hook.py:104-125 | a MultiEdit is approved without a note |
| PythonFileLimits.ReadNeverBlocked | hooks/python_file_limits_hook.py:128-146 | a Read is approved, with a warning exactly when it reads an existing `.py` file over 500 lines |
| CodeQualityReminder.LoadRecord | hooks/code_quality_reminder_hook.py:19-32 | files are loaded only from a record with a timestamp that is fresh, and only files the record holds |
| CodeQualityReminder.ListOf | hooks/code_quality_reminder_hook.py:40 | `list(files)` holds each file exactly once |
| CodeQualityReminder.SessionStore.Save | hooks/code_quality_reminder_hook.py:35-44 | a successful save stores the files, stamped with the current time; a failed save leaves the record alone |
| CodeQualityReminder.SessionStore.Track | hooks/code_quality_reminder_hook.py:88-90 | the tracked set is the loaded set plus the path, and it is saved |
| CodeQualityReminder.SessionStore.Handle | hooks/code_quality_reminder_hook.py:61-126 | always approves; an untracked event leaves the record alone; a tracked one adds its path, and from the third file on the note is the reminder over a listing of the tracked files and the project root |
| CodeQualityReminder.Untracked | hooks/code_quality_reminder_hook.py:63-85 | an event that is not a change to a `.py` file is approved, with a note exactly when the input was not JSON |
| CodeQualityReminder.SavedLoadsBack | hooks/code_quality_reminder_hook.py:19-44 | a saved set loads back unchanged for the next hour |
| CodeQualityReminder.SavedExpires | hooks/code_quality_reminder_hook.py:28 | a saved set loads as empty from one hour to one day after the save |
| CodeQualityReminder.FreshAcrossDays | hooks/code_quality_reminder_hook.py:28 | a record is fresh again in the same hour of every later day, because the check reads only the seconds part of the elapsed time |
| CodeQualityReminder.FutureStampStale | hooks/code_quality_reminder_hook.py:28 | a stamp more than one hour in the future (and less than a day) is stale |
| CodeQualityReminder.NoStampNothingLoaded | hooks/code_quality_reminder_hook.py:21-32 | a missing record, or one without a timestamp, loads as empty |
| CodeQualityReminder.TrackedSize | hooks/code_quality_reminder_hook.py:89-95 | adding a path grows the set by one exactly when the path is new |
| CodeQualityReminder.ProjectRoot | hooks/code_quality_reminder_hook.py:47-58 | the loop returns the root defined by the nearest-marker search |
| CodeQualityReminder.AncestorParts | hooks/code_quality_reminder_hook.py:49-56 | going up k levels removes k parts, and stops at the root |
| CodeQualityReminder.FoundDepth | hooks/code_quality_reminder_hook.py:49-57 | a found root is the ancestor at some level below 10 that has a marker, with no marker on any level below it |
| CodeQualityReminder.FindRootFound | hooks/code_quality_reminder_hook.py:49-57 | a found root has `pyproject.toml` or `.git` |
| CodeQualityReminder.NearestMarkerFound | hooks/code_quality_reminder_hook.py:49-57 | the nearest marked ancestor within 10 levels is the one found |
| CodeQualityReminder.NotFoundUnmarked | hooks/code_quality_reminder_hook.py:49-58 | when nothing is found, no ancestor within 10 levels has a marker |
| CodeQualityReminder.BasenameBullets | hooks/code_quality_reminder_hook.py:101 | one bullet per file, showing its base name |
| CodeQualityReminder.ShortListLines | hooks/code_quality_reminder_hook.py:101 | up to five files are listed one per line |
| CodeQualityReminder.LongListLines | hooks/code_quality_reminder_hook.py:101-103 | with more than five files, the first five are listed and then one `... and N more files` line |
| CodeQualityReminder.FilesListLines | hooks/code_quality_reminder_hook.py:101-103 | the listing has min(n, 5) lines, plus one when n > 5; line k names file k's base name, and line 5 counts the rest |
| TestingStandards.FileRule | hooks/testing_standards_hook.py:38-69 | only a test file is refused |
| TestingStandards.FileDecision | hooks/testing_standards_hook.py:34-92 | a change is blocked exactly when the placement or naming rule refuses its path |
| TestingStandards.Decide | hooks/testing_standards_hook.py:21-141 | only file changes and Bash commands are blocked |
| TestingStandards.MisplacedTestBlocked | hooks/testing_standards_hook.py:38-56 | a test file with no `tests` part in its path is refused with the location reason |
| TestingStandards.FileRuleIff | hooks/testing_standards_hook.py:38-69 | a change is blocked exactly when it is a test file outside `tests` or one whose base name lacks the `test_` prefix |
| TestingStandards.SuffixTestMisnamed | hooks/testing_standards_hook.py:59-69 | `tests/<name>_test.py` is refused with the naming reason for its base name |
| TestingStandards.TestsChildParsed | hooks/testing_standards_hook.py:39-42 | `tests/<name>` parses to the parts `tests`, `<name>` |
| TestingStandards.NoTestWordNotTestFile | hooks/testing_standards_hook.py:38 | a path without `test` is not a test file |
| TestingStandards.TddReminderIff | hooks/testing_standards_hook.py:72-92 | a Write gets the TDD reminder exactly when it writes a `.py` path without `test` whose content defines a function or class |
| TestingStandards.EditsGetNoReminder | hooks/testing_standards_hook.py:72-92 | Edits and MultiEdits never get the reminder |
| TestingStandards.LeadingDefSeen | hooks/testing_standards_hook.py:78 | content starting `def <name>` defines a name |
| TestingStandards.NoKeywordNoDefinition | hooks/testing_standards_hook.py:78 | content without `def` and `class` defines nothing |
| TestingStandards.BashDecision | hooks/testing_standards_hook.py:97-141 | a command is blocked only when it runs pytest or unittest |
| TestingStandards.PytestNeedsUv | hooks/testing_standards_hook.py:100-112 | pytest outside `uv run` or `venv_linux` is refused with the uv reason |
| TestingStandards.BashBlockedIff | hooks/testing_standards_hook.py:100-137 | a command is blocked exactly when it runs pytest without uv, or runs unittest and is not a pytest run that got the coverage tip |
| TestingStandards.CoverageTipIff | hooks/testing_standards_hook.py:115-124 | the coverage tip goes exactly to a pytest run under uv that names no `--cov` and no test file |
| TestingStandards.NoSeparatorPytestAtStart | hooks/testing_standards_hook.py:100 | without `;`, `&` or `\|` a command runs pytest exactly when it starts with it |
| TestingStandards.PytestAfterSeparatorAnywhere | hooks/testing_standards_hook.py:100 | `pytest` right after a separator counts wherever it is |
| TestingStandards.UnittestSeen | hooks/testing_standards_hook.py:127 | `python … -m unittest …` on one line runs unittest |
| TestingStandards.UnittestBlocked | hooks/testing_standards_hook.py:127-137 | such a command, when it is not a pytest run, is refused with the unittest reason |
| TestingStandards.OtherToolsApproved | hooks/testing_standards_hook.py:139-141 | other tools are approved without a note |
| UvPackageManagement.FileDecision | hooks/uv_package_management_hook.py:31-69 | only changes to `pyproject.toml` are refused |
| UvPackageManagement.BashDecision | hooks/uv_package_management_hook.py:74-142 | a command is refused only for pip install, poetry, a bare interpreter or venv creation |
| UvPackageManagement.Decide | hooks/uv_package_management_hook.py:18-142 | only file changes and Bash commands are blocked |
| UvPackageManagement.OtherFilesApproved | hooks/uv_package_management_hook.py:31-34 | a change to any other file is approved |
| UvPackageManagement.ManifestBlockedIff | hooks/uv_package_management_hook.py:36-69 | a change to `pyproject.toml` is blocked exactly when the text it writes matches a dependency pattern; for a MultiEdit the text is its new strings joined by spaces |
| UvPackageManagement.CaseIgnored | hooks/uv_package_management_hook.py:45-69 | the dependency patterns ignore case |
| UvPackageManagement.LowerTwice | hooks/uv_package_management_hook.py:56-60 | lowering is idempotent |
| UvPackageManagement.QuotedPinMatches | hooks/uv_package_management_hook.py:50-54 | a quoted `"name<op>version"` with a comparison operator matches |
| UvPackageManagement.JoinedKeepsHeader | hooks/uv_package_management_hook.py:36-42 | a section header in one new string survives the join |
| UvPackageManagement.MultiEditHeaderBlocked | hooks/uv_package_management_hook.py:36-69 | a MultiEdit of `pyproject.toml` one of whose strings holds a dependency section header is refused |
| UvPackageManagement.PipFirst | hooks/uv_package_management_hook.py:76-86 | a pip install is refused with the pip reason, before any other rule |
| UvPackageManagement.PipInstallBlocked | hooks/uv_package_management_hook.py:76-86 | `pip <spaces>install` at a word boundary is refused with the pip reason |
| UvPackageManagement.BareNotUvRun | hooks/uv_package_management_hook.py:102-126 | a bare interpreter command never starts with `uv run` |
| UvPackageManagement.BareInterpreterIff | hooks/uv_package_management_hook.py:102-126 | a command with no pip or poetry is refused for its interpreter exactly when it starts with `python`, `python3`, `pytest`, `mypy` or `ruff` and whitespace, and does not mention `venv_linux` |
| UvPackageManagement.VenvCreationBlocked | hooks/uv_package_management_hook.py:129-138 | `python -m venv` is refused, under `uv run` too |
| UvPackageManagement.BashApprovedIff | hooks/uv_package_management_hook.py:74-142 | a command is approved exactly when no rule applies |
| UvPackageManagement.OtherToolsApproved | hooks/uv_package_management_hook.py:140-142 | other tools are approved |
| TestReminder.Decide | hooks/test_reminder_hook.py:39-113 | every input is approved, with a note exactly for undecodable input or a change to a Python file that the skip rules let through |
| TestReminder.NeverBlocks | hooks/test_reminder_hook.py:39-113 | the exit status is always 0 |
| TestReminder.ReminderIff | hooks/test_reminder_hook.py:54-111 | an event gets a reminder exactly when it changes a file that is not skipped |
| TestReminder.WritesAlwaysRemind | hooks/test_reminder_hook.py:61-111 | a Write or MultiEdit of a non-test `.py` file always gets a reminder |
| TestReminder.LargeEditReminds | hooks/test_reminder_hook.py:71-78 | an Edit of such a file that replaces or inserts at least 50 characters gets a reminder |
| TestReminder.FoundReminderNamesTest | hooks/test_reminder_hook.py:81-95 | when a test file is found, the reminder names that file; it exists and is `tests/test_<name>` in the file's directory or the one above |
| TestReminder.FoundTestExists | hooks/test_reminder_hook.py:14-36 | a test file that is found exists and is `tests/test_<name>` in the file's directory or the one above |
| TestReminder.NearCandidateFirst | hooks/test_reminder_hook.py:23-28 | the test file next to the source file is preferred |
| TestReminder.NothingFoundIff | hooks/test_reminder_hook.py:14-36 | nothing is found exactly when the name looks like a test or neither candidate exists |
| TestReminder.MissingSuggestsNearTest | hooks/test_reminder_hook.py:96-111 | without a test file, the reminder suggests `tests/test_<name>` next to the file |
| TestReminder.SuffixTestToldNoTests | hooks/test_reminder_hook.py:19-20 | a `*_test.py` file that passes the skip rules is always told no tests exist |
| Paths.Parse | hooks/test_reminder_hook.py:16 | a parsed path is well formed |
| Paths.Parent | hooks/code_quality_reminder_hook.py:54-56 | the parent is well formed, equals the path exactly at the top, and has one part fewer |
| Paths.Join | hooks/test_reminder_hook.py:23-24 | joining a name gives a path with that name whose parent is the original path |
| Paths.Basename | hooks/testing_standards_hook.py:59 | the base name has no slash, ends the path, and follows its last slash |
| Paths.TestPathIn | hooks/test_reminder_hook.py:23-24 | `dir / "tests" / f"test_{name}"` is named `test_<name>`, sits in `tests`, and `tests` sits in `dir` |
| Paths.ParseRender | hooks/test_reminder_hook.py:23-36 | rendering a path and parsing it back gives the same path |
| Paths.SuggestedTestShape | hooks/test_reminder_hook.py:98-99 | the suggested test path is `tests/test_<name>` in the file's own directory |

## Left out

- JSON decoding and printing, `sys.exit` and reading standard input are not modelled. The event arrives as an `Input` value, and the printed decision is the `Decision` value.
- Undecodable input is modelled only by the decoder's message. A JSON value that is not an object is not modelled.
- Character classes are ASCII, as Python matches them on ASCII text. `\w`, `\d`, `lower()` and `IGNORECASE` have no Unicode case folding or Unicode letters. `\s` is the full whitespace set of `str.isspace`.
- The Python parser is not modelled. `PythonFileLimits.Decide` takes the nodes `ast.walk` yields, in walk order, as `parse`, or `SyntaxError`.
- The file read by the Edit and Read rules of the file-limit hook is `disk`. `os.path.exists` and the read are one value, and a read error is not modelled.
- The clock is whole seconds. ISO timestamp formatting and parsing are not modelled, and a timestamp that does not parse loads as an empty set, like any other error.
- The session file is the `stored` field of `SessionStore`. Concurrent runs of the hook, and partial writes, are not modelled.
- CodeQualityReminder.SessionStore.Handle: the order of `list(modified_files)` is left open. The contract says that some listing of the tracked files, each once, is the one shown. It does not say which five files are shown.
- `ruff_lint_check_hook.py` and `type_check_hook.py` are not part of this model. They run external programs.
- `Strings.NatToString`/`IntToString` render integers in decimal. No thousands separators or other formats are used by the hooks.
- Where the hook's comments and the code differ, the model follows the code. The session timestamp is renewed on every save, so the hour runs from the last change, not from the first. `timedelta.seconds` drops whole days, so a record is fresh again a day later (`FreshAcrossDays`), and a stamp from the future can still be fresh.
- In the testing-standards hook, `^pytest\s` does not match `uv run pytest …`, and no separator precedes `pytest` there. So `uv run pytest` is neither refused nor given the coverage tip by that hook; the uv test there only matters after `; pytest` and similar.
- In the uv hook, a bare interpreter command cannot start with `uv run`, and `./venv_linux` contains `venv_linux`. Those two tests of the source never change the result (`BareNotUvRun`, `DotVenvHoldsVenv`).
- The test reminder's `find_test_file` skips names containing `test_` or `_test.py`. For a `*_test.py` file, which `main()` does not skip, it therefore never finds a test, and the hook always says no tests exist (`SuffixTestToldNoTests`).
