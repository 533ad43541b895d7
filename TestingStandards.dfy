/**
 * The testing-standards guard (hooks/testing_standards_hook.py): test files
 * must live in a `tests` directory and be named `test_*`; writing a new
 * implementation file that defines something earns a TDD reminder; pytest
 * must run under uv or the venv_linux environment, with a coverage tip for
 * plain runs; `python -m unittest` is refused.
 */
module TestingStandards {
  import opened Hooks
  import opened Strings
  import opened Paths

  const LocationReason :=
    "Test files must be in 'tests/' subdirectories! Per CLAUDE.md:\n"
    + "Vertical slice architecture requires tests next to code:\n\n"
    + "Example structure:\n"
    + "  features/user_management/\n"
    + "    handlers.py\n"
    + "    tests/\n"
    + "      test_handlers.py\n\n"
    + "Move this test to the appropriate tests/ subdirectory."

  function NamingReason(filename: string): string {
    "Test files must start with 'test_'! Per CLAUDE.md:\n"
    + "Proper naming: test_module.py, test_feature.py\n"
    + "Rename '" + filename + "' to start with 'test_'"
  }

  function TddReminder(testFile: string): string {
    "REMINDER: Follow TDD! Per CLAUDE.md:\n"
    + "Create test file: " + testFile + "\n"
    + "Write tests BEFORE implementation."
  }

  const UvReason :=
    "Run pytest with UV! Per CLAUDE.md:\n"
    + "  uv run pytest\n"
    + "  uv run pytest tests/test_module.py -v\n"
    + "  uv run pytest --cov=src --cov-report=html"

  const CoverageTip :=
    "TIP: Run with coverage! Per CLAUDE.md:\n"
    + "  uv run pytest --cov=src --cov-report=html\n"
    + "Aim for 80%+ coverage on critical paths."

  const UnittestReason :=
    "Use pytest instead of unittest! Per CLAUDE.md:\n"
    + "pytest is the standard testing framework.\n"
    + "  uv run pytest\n"
    + "  uv run pytest tests/ -v"

  // ---------------------------------------------------------------------
  // File rules

  /** A path is taken for a test file when its basename holds `test_` or the path holds `_test.py`. */
  predicate IsTestFile(filePath: string) {
    Contains(Basename(filePath), "test_") || Contains(filePath, "_test.py")
  }

  /** Some entry of `Path(file_path).parts` is `tests`. */
  predicate InTestsDir(filePath: string) {
    "tests" in PartsTuple(Parse(filePath))
  }

  /** The placement and naming rules: the reason a change to this path is refused, if any. */
  function FileRule(filePath: string): (r: Option<string>)
    ensures r.Some? ==> IsTestFile(filePath)
  {
    if !IsTestFile(filePath) then None
    else if !InTestsDir(filePath) then Some(LocationReason)
    else if !StartsWith(Basename(filePath), "test_") then Some(NamingReason(Basename(filePath)))
    else None
  }

  /** `^` with the MULTILINE flag: the start of the text or of a line. */
  predicate LineStart(c: string, i: int) {
    i == 0 || (0 < i <= |c| && c[i - 1] == '\n')
  }

  /**
   * One match of `^\s*kw\s+\w+` with MULTILINE: a line start at `i`,
   * whitespace up to `j` (it may cross line ends), the keyword, whitespace,
   * and a word character at `m`.
   */
  predicate DefinitionAt(c: string, i: int, j: int, kw: string, m: int) {
    && LineStart(c, i) && Run(c, i, j, Space) && StartsAt(c, j, kw)
    && j + |kw| < m < |c| && Run(c, j + |kw|, m, Space) && IsWordChar(c[m])
  }

  /** `re.search(r'^\s*(def|class)\s+\w+', content, re.MULTILINE)` */
  predicate DefinesName(c: string) {
    exists i, j, m | 0 <= i <= j < m < |c| ::
      DefinitionAt(c, i, j, "def", m) || DefinitionAt(c, i, j, "class", m)
  }

  /** A `.py` path without `test` in it, written with content that defines a function or class. */
  predicate ImplementationWrite(filePath: string, content: string) {
    && EndsWith(filePath, ".py")
    && !Contains(filePath, "test") && !Contains(filePath, "tests")
    && DefinesName(content)
  }

  function FileDecision(e: Event): (d: Decision)
    requires ChangesFile(e)
    ensures d.Block? <==> FileRule(e.filePath).Some?
  {
    match FileRule(e.filePath)
    case Some(reason) => Block(reason)
    case None =>
      if e.Write? && ImplementationWrite(e.filePath, e.content)
      then Approve(Some(TddReminder(SuggestedTest(e.filePath))))
      else Approve(None)
  }

  // ---------------------------------------------------------------------
  // Command rules

  predicate IsSeparator(ch: char) {
    ch == ';' || ch == '&' || ch == '|'
  }

  /** `re.match(r'^pytest\s', command)` */
  predicate PytestAtStart(c: string) {
    StartsWith(c, "pytest") && 6 < |c| && IsSpace(c[6])
  }

  /** `re.search(r'[;&|]\s*pytest\s', command)` */
  predicate PytestAfterSeparator(c: string) {
    exists i, j | 0 <= i < j && j + 6 < |c| ::
      IsSeparator(c[i]) && Run(c, i + 1, j, Space) && StartsAt(c, j, "pytest") && IsSpace(c[j + 6])
  }

  predicate PytestCommand(c: string) {
    PytestAtStart(c) || PytestAfterSeparator(c)
  }

  /** The command starts with `uv run` or mentions `venv_linux`. */
  predicate UsesUv(c: string) {
    StartsWith(c, "uv run") || Contains(c, "venv_linux")
  }

  /** `re.search(r'test_\w+\.py', command)` */
  predicate NamesTestFile(c: string) {
    exists i, m | 0 <= i && i + 5 < m && m + 3 <= |c| ::
      StartsAt(c, i, "test_") && Run(c, i + 5, m, Word) && StartsAt(c, m, ".py")
  }

  /** `re.search(r'python.*-m\s+unittest', command)` */
  predicate RunsUnittest(c: string) {
    exists i, j, k | 0 <= i && i + 6 <= j && j + 2 < k && k + 8 <= |c| ::
      && StartsAt(c, i, "python") && Run(c, i + 6, j, NotNewline)
      && StartsAt(c, j, "-m") && Run(c, j + 2, k, Space) && StartsAt(c, k, "unittest")
  }

  /** The pytest rule, then the coverage tip, then the unittest rule. */
  function BashDecision(c: string): (d: Decision)
    ensures d.Block? ==> PytestCommand(c) || RunsUnittest(c)
  {
    if PytestCommand(c) && !UsesUv(c) then Block(UvReason)
    else if PytestCommand(c) && !Contains(c, "--cov") && !NamesTestFile(c) then Approve(Some(CoverageTip))
    else if RunsUnittest(c) then Block(UnittestReason)
    else Approve(None)
  }

  /** `main()`: file tools, then Bash; anything else is approved. */
  function Decide(input: Input): (d: Decision)
    ensures d.Block? ==> input.Parsed? && (ChangesFile(input.event) || input.event.Bash?)
  {
    match input
    case Malformed(error) => ParseFailure(error)
    case Parsed(e) =>
      if ChangesFile(e) then FileDecision(e)
      else if e.Bash? then BashDecision(e.command)
      else Approve(None)
  }

  // ---------------------------------------------------------------------
  // Properties of the file rules

  /** A change to a test file outside every `tests` directory is refused. */
  lemma MisplacedTestBlocked(e: Event)
    requires ChangesFile(e) && IsTestFile(e.filePath) && !InTestsDir(e.filePath)
    ensures Decide(Parsed(e)) == Block(LocationReason)
  {
  }

  /**
   * A test file that passes lies in a `tests` directory and is named
   * `test_*`; conversely such a file always passes, and a file that is not
   * a test file is never refused.
   */
  lemma FileRuleIff(e: Event)
    requires ChangesFile(e)
    ensures Decide(Parsed(e)).Block? <==>
              IsTestFile(e.filePath)
              && (!InTestsDir(e.filePath) || !StartsWith(Basename(e.filePath), "test_"))
  {
  }

  /**
   * A file directly under `tests` whose name holds `_test.py` but does not
   * start with `test_` (`tests/handlers_test.py`) is in place but misnamed,
   * so it is refused with the naming reason.
   */
  lemma SuffixTestMisnamed(name: string)
    requires ValidPart(name) && Contains(name, "_test.py") && !StartsWith(name, "test_")
    ensures Decide(Parsed(Write("tests/" + name, ""))) == Block(NamingReason(name))
  {
    var fp := "tests/" + name;
    TestsChildParsed(name);
    assert PartsTuple(Parse(fp)) == ["tests", name];
    assert InTestsDir(fp);
    assert fp[5] == '/' && fp[6..] == name;
    BasenameTail(fp, 5);
    ContainsInTail(fp, 6, "_test.py");
  }

  lemma TestsChildParsed(name: string)
    requires ValidPart(name)
    ensures Parse("tests/" + name) == Path("", ["tests", name])
  {
    var fp := "tests/" + name;
    assert fp == "tests" + ['/'] + name;
    IndexOfFirst("tests", '/', name);
    assert fp[..5] == "tests" && fp[6..] == name;
    IndexOfAbsent(name, '/');
    assert Split(name, '/') == [name];
    assert Split(fp, '/') == ["tests", name];
    KeepValid(["tests", name]);
    assert fp[0] == 't';
    assert !StartsWith(fp, "/");
  }

  /** The basename of a path is what follows its last "/". */
  lemma {:induction false} BasenameTail(s: string, k: nat)
    requires k < |s| && s[k] == '/' && '/' !in s[k + 1..]
    ensures Basename(s) == s[k + 1..]
    decreases |s|
  {
    if |s| > k + 1 {
      var t := s[..|s| - 1];
      assert s[k + 1..] == t[k + 1..] + [s[|s| - 1]];
      BasenameTail(t, k);
    }
  }

  /** `"tests" in file_path` can only hold where `"test" in file_path` does. */
  lemma TestsImpliesTest(filePath: string)
    ensures Contains(filePath, "tests") ==> Contains(filePath, "test")
  {
    if Contains(filePath, "tests") {
      ContainsSlice(filePath, "tests", 0, 4);
      assert "tests"[0..4] == "test";
    }
  }

  /** A path without `test` in it is never taken for a test file. */
  lemma NoTestWordNotTestFile(filePath: string)
    ensures !Contains(filePath, "test") ==> !IsTestFile(filePath)
  {
    if Contains(filePath, "_test.py") {
      ContainsSlice(filePath, "_test.py", 1, 5);
      assert "_test.py"[1..5] == "test";
    }
    if Contains(Basename(filePath), "test_") {
      var b := Basename(filePath);
      ContainsSlice(b, "test_", 0, 4);
      assert "test_"[0..4] == "test";
      assert filePath[|filePath| - |b|..] == b;
      ContainsInTail(filePath, |filePath| - |b|, "test");
    }
  }

  /**
   * A Write gets the TDD reminder exactly when it writes a `.py` path
   * without `test` in it and the content defines a function or class; the
   * reminder names the suggested test file.
   */
  lemma TddReminderIff(filePath: string, content: string)
    ensures Decide(Parsed(Write(filePath, content))) == Approve(Some(TddReminder(SuggestedTest(filePath))))
            <==> ImplementationWrite(filePath, content)
  {
    NoTestWordNotTestFile(filePath);
  }

  /** Edits and MultiEdits never get the reminder: they are approved without a note or refused. */
  lemma EditsGetNoReminder(e: Event)
    requires e.Edit? || e.MultiEdit?
    ensures Decide(Parsed(e)) == Approve(None) || Decide(Parsed(e)).Block?
  {
  }

  /** A definition at the very start of the content is seen. */
  lemma LeadingDefSeen(name: string, rest: string)
    requires name != [] && IsWordChar(name[0])
    ensures DefinesName("def " + name + rest)
  {
    var c := "def " + name + rest;
    assert c[4] == name[0];
    assert DefinitionAt(c, 0, 0, "def", 4);
  }

  /** Content without the words `def` and `class` defines nothing. */
  lemma NoKeywordNoDefinition(c: string)
    requires !Contains(c, "def") && !Contains(c, "class")
    ensures !DefinesName(c)
  {
    forall i, j, m | 0 <= i <= j < m < |c|
      ensures !DefinitionAt(c, i, j, "def", m) && !DefinitionAt(c, i, j, "class", m)
    {
      StartsAtContains(c, j, "def");
      StartsAtContains(c, j, "class");
    }
  }

  // ---------------------------------------------------------------------
  // Properties of the command rules

  /** pytest outside uv and venv_linux is refused. */
  lemma PytestNeedsUv(c: string)
    requires PytestCommand(c) && !UsesUv(c)
    ensures Decide(Parsed(Bash(c))) == Block(UvReason)
  {
  }

  /**
   * A command is refused exactly when it runs pytest outside uv and
   * venv_linux, or runs unittest without having earned the coverage tip.
   */
  lemma BashBlockedIff(c: string)
    ensures Decide(Parsed(Bash(c))).Block? <==>
              || (PytestCommand(c) && !UsesUv(c))
              || (RunsUnittest(c) && !(PytestCommand(c) && !Contains(c, "--cov") && !NamesTestFile(c)))
  {
  }

  /** The coverage tip goes to a permitted pytest run that names no coverage and no test file. */
  lemma CoverageTipIff(c: string)
    ensures Decide(Parsed(Bash(c))) == Approve(Some(CoverageTip)) <==>
              PytestCommand(c) && UsesUv(c) && !Contains(c, "--cov") && !NamesTestFile(c)
  {
    assert |CoverageTip| != |UvReason|;
  }

  /**
   * Without `;`, `&` or `|` a command is a pytest run only when it starts
   * with `pytest`: `uv run pytest` itself never meets the rule.
   */
  lemma NoSeparatorPytestAtStart(c: string)
    requires forall k | 0 <= k < |c| :: !IsSeparator(c[k])
    ensures PytestCommand(c) <==> PytestAtStart(c)
  {
  }

  /**
   * pytest after a separator is a pytest run wherever it stands, inside
   * quotes too.
   */
  lemma PytestAfterSeparatorAnywhere(pre: string, sep: char, post: string)
    requires IsSeparator(sep) && post != [] && IsSpace(post[0])
    ensures PytestCommand(pre + [sep] + "pytest" + post)
  {
    var c := pre + [sep] + "pytest" + post;
    var j := |pre| + 1;
    StartsAtFront("pytest", "");
    assert "pytest" + "" == "pytest";
    StartsAtShift(pre + [sep], "pytest", post, 0, "pytest");
    assert c[|pre|] == sep;
    assert c[j + 6] == post[0];
    assert Run(c, j, j, Space);
    assert IsSeparator(c[j - 1]) && StartsAt(c, j, "pytest") && IsSpace(c[j + 6]);
  }

  /** `python`, then anything on the line, then `-m`, whitespace and `unittest` runs unittest. */
  lemma UnittestSeen(mid: string, sp: string, post: string)
    requires '\n' !in mid && sp != [] && forall k | 0 <= k < |sp| :: IsSpace(sp[k])
    ensures RunsUnittest("python" + mid + "-m" + sp + "unittest" + post)
  {
    var c := "python" + mid + "-m" + sp + "unittest" + post;
    var j := 6 + |mid|;
    var k := j + 2 + |sp|;
    assert StartsAt(c, 0, "python") by {
      assert c[..6] == "python";
    }
    assert Run(c, 6, j, NotNewline) by {
      assert forall x | 6 <= x < j :: c[x] == mid[x - 6];
    }
    assert StartsAt(c, j, "-m") by {
      assert c[j..j + 2] == "-m";
    }
    assert Run(c, j + 2, k, Space) by {
      assert forall x | j + 2 <= x < k :: c[x] == sp[x - j - 2];
    }
    assert StartsAt(c, k, "unittest") by {
      assert c[k..k + 8] == "unittest";
    }
  }

  /** Such a command is refused unless the pytest rule answers first. */
  lemma UnittestBlocked(mid: string, sp: string, post: string)
    requires '\n' !in mid && sp != [] && forall k | 0 <= k < |sp| :: IsSpace(sp[k])
    requires !PytestCommand("python" + mid + "-m" + sp + "unittest" + post)
    ensures Decide(Parsed(Bash("python" + mid + "-m" + sp + "unittest" + post))) == Block(UnittestReason)
  {
    UnittestSeen(mid, sp, post);
  }

  /** Tools other than Write, Edit, MultiEdit and Bash are approved without a note. */
  lemma OtherToolsApproved(e: Event)
    requires !ChangesFile(e) && !e.Bash?
    ensures Decide(Parsed(e)) == Approve(None)
  {
  }
}
