/**
 * The test reminder (hooks/test_reminder_hook.py), run after a tool: after
 * a significant change to a Python implementation file it names the test
 * file to run, or suggests where to create one. It never blocks. Which
 * files exist is a parameter: `existing` is the set of paths for which
 * `Path.exists()` holds.
 */
module TestReminder {
  import opened Hooks
  import opened Strings
  import opened Paths

  /** An Edit below this many characters on both sides counts as minor. */
  const MinorEditLength := 50

  function FoundReminder(base: string, testFile: string): string {
    "\U{1F9EA} TEST REMINDER for " + base + "!\n\n"
    + "Test file found: " + testFile + "\n\n"
    + "Per CLAUDE.md (TDD practices), run tests:\n"
    + "  uv run pytest " + testFile + " -v\n\n"
    + "Or run all tests:\n"
    + "  uv run pytest\n\n"
    + "Ensure all tests pass after your changes!"
  }

  function MissingReminder(base: string, suggested: string): string {
    "\U{26A0}\U{FE0F} NO TESTS FOUND for " + base + "!\n\n"
    + "Per CLAUDE.md (TDD requirement):\n"
    + "1. Create test file: " + suggested + "\n"
    + "2. Write tests for your implementation\n"
    + "3. Run: uv run pytest\n\n"
    + "Remember: No feature is complete without tests!"
  }

  /** `find_test_file` skips a name that already looks like a test. */
  predicate LooksLikeTest(name: string) {
    Contains(name, "test_") || Contains(name, "_test.py")
  }

  /** The first candidate: `tests/test_<name>` in the file's own directory. */
  function NearCandidate(p: Path): Path
    requires Valid(p)
  {
    TestPathIn(Parent(p), Name(p))
  }

  /** The second candidate: `tests/test_<name>` one directory further up. */
  function FarCandidate(p: Path): Path
    requires Valid(p)
  {
    TestPathIn(Parent(Parent(p)), Name(p))
  }

  /** `find_test_file(file_path)`: the first candidate that exists, rendered. */
  function FindTestFile(filePath: string, existing: set<Path>): Option<string> {
    var p := Parse(filePath);
    if LooksLikeTest(Name(p)) then None
    else if NearCandidate(p) in existing then Some(Render(NearCandidate(p)))
    else if FarCandidate(p) in existing then Some(Render(FarCandidate(p)))
    else None
  }

  /** The filters of `main()` that end in a plain approval. */
  predicate Skipped(e: Event)
    requires ChangesFile(e)
  {
    || !EndsWith(e.filePath, ".py")
    || Contains(Basename(e.filePath), "test_") || Contains(e.filePath, "__init__.py")
    || (e.Edit? && |e.oldString| < MinorEditLength && |e.newString| < MinorEditLength)
  }

  /** `main()`. */
  function Decide(input: Input, existing: set<Path>): (d: Decision)
    ensures d.Approve?
    ensures d.note.Some? <==> input.Malformed? || (ChangesFile(input.event) && !Skipped(input.event))
  {
    match input
    case Malformed(error) => ParseFailure(error)
    case Parsed(e) =>
      if !ChangesFile(e) || Skipped(e) then Approve(None)
      else
        var base := Basename(e.filePath);
        match FindTestFile(e.filePath, existing)
        case Some(testFile) => Approve(Some(FoundReminder(base, testFile)))
        case None => Approve(Some(MissingReminder(base, SuggestedTest(e.filePath))))
  }

  // ---------------------------------------------------------------------
  // Properties

  /** The hook never blocks: it always exits with status 0. */
  lemma NeverBlocks(input: Input, existing: set<Path>)
    ensures ExitStatus(Decide(input, existing)) == 0
  {
  }

  /**
   * Only a significant change to a Python implementation file gets a
   * reminder; every other event, including every tool but Write, Edit and
   * MultiEdit, is approved without a note.
   */
  lemma ReminderIff(e: Event, existing: set<Path>)
    ensures Decide(Parsed(e), existing).note.Some? <==> ChangesFile(e) && !Skipped(e)
  {
  }

  /** Writes and MultiEdits to an implementation file are never skipped for their size. */
  lemma WritesAlwaysRemind(e: Event, existing: set<Path>)
    requires e.Write? || e.MultiEdit?
    requires EndsWith(e.filePath, ".py")
    requires !Contains(Basename(e.filePath), "test_") && !Contains(e.filePath, "__init__.py")
    ensures Decide(Parsed(e), existing).note.Some?
  {
  }

  /** An Edit with 50 or more characters on either side is significant. */
  lemma LargeEditReminds(filePath: string, oldText: string, newText: string, existing: set<Path>)
    requires EndsWith(filePath, ".py")
    requires !Contains(Basename(filePath), "test_") && !Contains(filePath, "__init__.py")
    requires |oldText| >= MinorEditLength || |newText| >= MinorEditLength
    ensures Decide(Parsed(Edit(filePath, oldText, newText)), existing).note.Some?
  {
  }

  /**
   * A test file that is found exists, is called `test_<name>`, and sits in
   * a `tests` directory in the file's own directory or the one above.
   */
  lemma FoundTestExists(filePath: string, existing: set<Path>)
    ensures var p := Parse(filePath);
            FindTestFile(filePath, existing).Some? ==>
              var t := Parse(FindTestFile(filePath, existing).value);
              && t in existing
              && Name(t) == "test_" + Name(p)
              && Name(Parent(t)) == "tests"
              && (Parent(Parent(t)) == Parent(p) || Parent(Parent(t)) == Parent(Parent(p)))
  {
    var p := Parse(filePath);
    if FindTestFile(filePath, existing).Some? {
      if NearCandidate(p) in existing {
        ParseRender(NearCandidate(p));
      } else {
        ParseRender(FarCandidate(p));
      }
    }
  }

  /**
   * When a test file is found, the reminder names it (and the command that
   * runs it); the file named exists and is `tests/test_<name>` next to the
   * changed file or one directory further up.
   */
  lemma FoundReminderNamesTest(e: Event, existing: set<Path>, t: string)
    requires ChangesFile(e) && !Skipped(e)
    requires FindTestFile(e.filePath, existing) == Some(t)
    ensures Decide(Parsed(e), existing) == Approve(Some(FoundReminder(Basename(e.filePath), t)))
    ensures var p := Parse(e.filePath);
            var q := Parse(t);
            && q in existing && Name(q) == "test_" + Name(p) && Name(Parent(q)) == "tests"
            && (Parent(Parent(q)) == Parent(p) || Parent(Parent(q)) == Parent(Parent(p)))
  {
    FoundTestExists(e.filePath, existing);
  }

  /** The nearer candidate wins when it exists. */
  lemma NearCandidateFirst(filePath: string, existing: set<Path>)
    requires !LooksLikeTest(Name(Parse(filePath)))
    requires NearCandidate(Parse(filePath)) in existing
    ensures FindTestFile(filePath, existing) == Some(Render(NearCandidate(Parse(filePath))))
  {
  }

  /** Nothing is found exactly when the name looks like a test or neither candidate exists. */
  lemma NothingFoundIff(filePath: string, existing: set<Path>)
    ensures var p := Parse(filePath);
            FindTestFile(filePath, existing).None? <==>
              LooksLikeTest(Name(p)) || (NearCandidate(p) !in existing && FarCandidate(p) !in existing)
  {
  }

  /**
   * Without a test file the reminder suggests `test_<name>` in a `tests`
   * directory next to the file, even where the file above it was the one
   * looked for.
   */
  lemma MissingSuggestsNearTest(e: Event, existing: set<Path>)
    requires ChangesFile(e) && !Skipped(e)
    requires FindTestFile(e.filePath, existing).None?
    ensures Decide(Parsed(e), existing) == Approve(Some(MissingReminder(Basename(e.filePath), SuggestedTest(e.filePath))))
    ensures var p := Parse(e.filePath);
            var t := Parse(SuggestedTest(e.filePath));
            Name(t) == "test_" + Name(p) && Parent(Parent(t)) == Parent(p)
  {
    SuggestedTestShape(e.filePath);
  }

  /**
   * A file named like `handlers_test.py` passes the skip rules of `main()`
   * (they only look for `test_`), but `find_test_file` then refuses it, so
   * it is always told that no tests exist.
   */
  lemma SuffixTestToldNoTests(e: Event, existing: set<Path>)
    requires ChangesFile(e) && !Skipped(e)
    requires Contains(Name(Parse(e.filePath)), "_test.py")
    ensures Decide(Parsed(e), existing) == Approve(Some(MissingReminder(Basename(e.filePath), SuggestedTest(e.filePath))))
  {
  }
}
