/**
 * The search-tool guard (hooks/search_commands_hook.py): a Bash command that
 * starts with grep (outside a pipeline), `find <dir> -name`, ack, ag or
 * locate is blocked with advice to use ripgrep; everything else is approved.
 */
module SearchCommands {
  import opened Hooks
  import opened Strings

  const GrepReason :=
    "Use 'rg' (ripgrep) instead of 'grep'! Per CLAUDE.md:\n"
    + "  - Search pattern: rg 'pattern'\n"
    + "  - Search in files: rg 'pattern' *.py\n"
    + "  - Case insensitive: rg -i 'pattern'\n"
    + "  - Show context: rg -C 3 'pattern'\n"
    + "ripgrep is faster and has better features."

  const FindReason :=
    "Use 'rg' instead of 'find -name'! Per CLAUDE.md:\n"
    + "  - Find Python files: rg --files -g '*.py'\n"
    + "  - Find all files: rg --files\n"
    + "  - Filter by pattern: rg --files | rg 'pattern'\n"
    + "ripgrep is much faster for file searches."

  const AckReason :=
    "Use 'rg' (ripgrep) for searching! Per CLAUDE.md:\n"
    + "ripgrep is the standard search tool for this project.\n"
    + "It's faster and more feature-rich than ack or ag."

  const LocateReason :=
    "Use 'rg --files' instead of 'locate'!\n"
    + "locate uses a database that may be outdated.\n"
    + "rg --files gives real-time results."

  /** `.*\|` matches at `i`: a "|" further along the same line. */
  predicate PipeLaterOnLine(c: string, i: int) {
    exists k | i <= k < |c| :: Run(c, i, k, NotNewline) && c[k] == '|'
  }

  /** `^grep\b(?!.*\|)` */
  predicate GrepOutsidePipeline(c: string) {
    StartsWith(c, "grep") && Boundary(c, 4) && !PipeLaterOnLine(c, 4)
  }

  /**
   * `^find\s+\S+\s+-name\b`, as the matcher resolves it: `\s` and `\S` are
   * complementary, so each of the three runs must be taken whole.
   */
  predicate FindByName(c: string) {
    && StartsWith(c, "find")
    && var a := RunEnd(c, 4, Space);
       var b := RunEnd(c, a, NonSpace);
       var e := RunEnd(c, b, Space);
       a > 4 && b > a && e > b && StartsAt(c, e, "-name") && Boundary(c, e + 5)
  }

  /** The same pattern read as a regular expression: some split of the text fits it. */
  predicate FindByNamePattern(c: string) {
    && StartsWith(c, "find")
    && exists a, b, e | 4 < a < b < e <= |c| ::
         && Run(c, 4, a, Space) && Run(c, a, b, NonSpace) && Run(c, b, e, Space)
         && StartsAt(c, e, "-name") && Boundary(c, e + 5)
  }

  /** `^(ack|ag)\b` */
  predicate AckOrAg(c: string) {
    (StartsWith(c, "ack") && Boundary(c, 3)) || (StartsWith(c, "ag") && Boundary(c, 2))
  }

  /** `^locate\b` */
  predicate Locate(c: string) {
    StartsWith(c, "locate") && Boundary(c, 6)
  }

  /** The command starts with the name of one of the guarded tools. */
  predicate StartsWithSearchTool(c: string) {
    || StartsWith(c, "grep") || StartsWith(c, "find") || StartsWith(c, "ack")
    || StartsWith(c, "ag") || StartsWith(c, "locate")
  }

  /** The chain of rules applied to a Bash command; the first that matches decides. */
  function CheckCommand(c: string): (d: Decision)
    ensures d.Approve? ==> d.note.None?
    ensures d.Block? ==> StartsWithSearchTool(c)
  {
    if GrepOutsidePipeline(c) then Block(GrepReason)
    else if FindByName(c) then Block(FindReason)
    else if AckOrAg(c) then Block(AckReason)
    else if Locate(c) then Block(LocateReason)
    else Approve(None)
  }

  /** `main()`: only Bash commands are inspected. */
  function Decide(input: Input): (d: Decision)
    ensures d.Block? ==> input.Parsed? && input.event.Bash? && StartsWithSearchTool(input.event.command)
    ensures (d.Approve? && d.note.Some?) <==> input.Malformed?
  {
    match input
    case Malformed(error) => ParseFailure(error)
    case Parsed(Bash(c)) => CheckCommand(c)
    case Parsed(_) => Approve(None)
  }

  // ---------------------------------------------------------------------
  // Properties

  /** Any tool other than Bash is approved without a reason. */
  lemma NonBashApproved(e: Event)
    requires !e.Bash?
    ensures Decide(Parsed(e)) == Approve(None)
  {
  }

  /** The first line of `s`, without its newline. */
  function FirstLine(s: string): string {
    s[..IndexOf(s, '\n')]
  }

  /** A "|" before the first line break of `rest` is a pipe later on the line of `grep`. */
  lemma PipeAtSeen(rest: string, k: nat)
    requires k < |rest| && rest[k] == '|'
    requires forall m | 0 <= m < k :: rest[m] != '\n'
    ensures PipeLaterOnLine("grep" + rest, 4)
  {
    var c := "grep" + rest;
    assert c[k + 4] == '|';
    assert Run(c, 4, k + 4, NotNewline) by {
      forall j | 4 <= j < k + 4
        ensures InClass(c[j], NotNewline)
      {
        assert c[j] == rest[j - 4];
      }
    }
  }

  /** A "|" before the first line break of `rest` is on its first line. */
  lemma PipeInFirstLine(rest: string, k: nat)
    requires k < |rest| && rest[k] == '|'
    requires forall m | 0 <= m < k :: rest[m] != '\n'
    ensures '|' in FirstLine(rest)
  {
    var n := IndexOf(rest, '\n');
    assert k < n;
    assert FirstLine(rest)[k] == '|';
  }

  lemma PipeOnFirstLine(rest: string)
    ensures PipeLaterOnLine("grep" + rest, 4) <==> '|' in FirstLine(rest)
  {
    var c := "grep" + rest;
    if PipeLaterOnLine(c, 4) {
      var k :| 4 <= k < |c| && Run(c, 4, k, NotNewline) && c[k] == '|';
      forall m | 0 <= m < k - 4
        ensures rest[m] != '\n'
      {
        assert c[m + 4] == rest[m] && InClass(c[m + 4], NotNewline);
      }
      assert rest[k - 4] == c[k];
      PipeInFirstLine(rest, k - 4);
    }
    if '|' in FirstLine(rest) {
      var first := FirstLine(rest);
      var m :| 0 <= m < |first| && first[m] == '|';
      assert rest[m] == '|';
      PipeAtSeen(rest, m);
    }
  }

  /**
   * A command that is the word `grep` is blocked exactly when its first line
   * has no "|": `grep x f` is blocked, `grep x f | head` is not.
   */
  lemma GrepBlockedIff(rest: string)
    requires rest == "" || !IsWordChar(rest[0])
    ensures Decide(Parsed(Bash("grep" + rest))).Block? <==> '|' !in FirstLine(rest)
    ensures '|' !in FirstLine(rest) ==> Decide(Parsed(Bash("grep" + rest))) == Block(GrepReason)
  {
    var c := "grep" + rest;
    StartsAtFront("grep", rest);
    PipeOnFirstLine(rest);
    assert c[3] == 'p';
    assert rest != "" ==> c[4] == rest[0];
    assert Boundary(c, 4);
    NotStartsAt(c, 0, "find", 0);
    NotStartsAt(c, 0, "ack", 0);
    NotStartsAt(c, 0, "ag", 0);
    NotStartsAt(c, 0, "locate", 0);
  }

  lemma MatcherFitsPattern(c: string)
    requires FindByName(c)
    ensures FindByNamePattern(c)
  {
    var a := RunEnd(c, 4, Space);
    var b := RunEnd(c, a, NonSpace);
    var e := RunEnd(c, b, Space);
    assert 4 < a < b < e <= |c|;
    assert Run(c, 4, a, Space) && Run(c, a, b, NonSpace) && Run(c, b, e, Space);
  }

  lemma PatternFitsMatcher(c: string, a: nat, b: nat, e: nat)
    requires StartsWith(c, "find") && 4 < a < b < e <= |c|
    requires Run(c, 4, a, Space) && Run(c, a, b, NonSpace) && Run(c, b, e, Space)
    requires StartsAt(c, e, "-name") && Boundary(c, e + 5)
    ensures FindByName(c)
  {
    assert InClass(c[a], NonSpace);
    RunEndAt(c, 4, a, Space);
    assert InClass(c[b], Space);
    RunEndAt(c, a, b, NonSpace);
    StartsAtChar(c, e, "-name", 0);
    RunEndAt(c, b, e, Space);
  }

  /** The hand-resolved matcher and the pattern agree on every command. */
  lemma FindByNameMatchesPattern(c: string)
    ensures FindByName(c) <==> FindByNamePattern(c)
  {
    if FindByName(c) {
      MatcherFitsPattern(c);
    }
    if FindByNamePattern(c) {
      var a, b, e :| 4 < a < b < e <= |c|
        && Run(c, 4, a, Space) && Run(c, a, b, NonSpace) && Run(c, b, e, Space)
        && StartsAt(c, e, "-name") && Boundary(c, e + 5);
      PatternFitsMatcher(c, a, b, e);
    }
  }

  /** A command that starts with `find` can only be blocked by the find rule. */
  lemma FindCommandChain(c: string)
    requires StartsWith(c, "find")
    ensures CheckCommand(c) == if FindByName(c) then Block(FindReason) else Approve(None)
  {
    StartsAtChar(c, 0, "find", 0);
    NotStartsAt(c, 0, "grep", 0);
    NotStartsAt(c, 0, "ack", 0);
    NotStartsAt(c, 0, "ag", 0);
    NotStartsAt(c, 0, "locate", 0);
  }

  /**
   * A command made of `find`, blanks, one token, blanks and then the rest is
   * blocked exactly when the rest starts with the word `-name`.
   */
  lemma FindBlockedIff(c: string, a: nat, b: nat, e: nat)
    requires StartsWith(c, "find") && 4 < a < b < e <= |c|
    requires Run(c, 4, a, Space) && Run(c, a, b, NonSpace) && Run(c, b, e, Space)
    requires e == |c| || !IsSpace(c[e])
    ensures Decide(Parsed(Bash(c))) ==
              if StartsAt(c, e, "-name") && Boundary(c, e + 5) then Block(FindReason) else Approve(None)
  {
    assert InClass(c[a], NonSpace);
    RunEndAt(c, 4, a, Space);
    assert InClass(c[b], Space);
    RunEndAt(c, a, b, NonSpace);
    RunEndAt(c, b, e, Space);
    FindCommandChain(c);
  }

  /** `find . -name <pattern>` is blocked, whatever the pattern. */
  lemma FindNameScenarioBlocked(pattern: string)
    ensures Decide(Parsed(Bash("find . -name " + pattern))) == Block(FindReason)
  {
    var pre, rest := "find . ", "-name " + pattern;
    var c := pre + rest;
    assert c == "find . -name " + pattern;
    assert "-name" + (" " + pattern) == rest;
    StartsAtFront("-name", " " + pattern);
    StartsAtAfter(pre, rest, "-name");
    StartsAtFront("find", " . " + rest);
    assert "find" + (" . " + rest) == c;
    assert c[4] == ' ' && c[5] == '.' && c[6] == ' ' && c[7] == '-' && c[11] == 'e' && c[12] == ' ';
    assert Run(c, 4, 5, Space) && Run(c, 5, 6, NonSpace) && Run(c, 6, 7, Space);
    assert Boundary(c, 12);
    FindBlockedIff(c, 5, 6, 7);
  }

  /** `find . -type <rest>` is not blocked, even when `-name` follows later. */
  lemma FindTypeScenarioApproved(rest: string)
    ensures Decide(Parsed(Bash("find . -type " + rest))) == Approve(None)
  {
    var c := "find . -type " + rest;
    StartsAtFront("find", " . -type " + rest);
    assert "find" + (" . -type " + rest) == c;
    assert c[4] == ' ' && c[5] == '.' && c[6] == ' ' && c[7] == '-' && c[8] == 't';
    assert Run(c, 4, 5, Space) && Run(c, 5, 6, NonSpace) && Run(c, 6, 7, Space);
    NotStartsAt(c, 7, "-name", 1);
    FindBlockedIff(c, 5, 6, 7);
  }

  /**
   * A command whose first word is exactly `ack`, `ag` or `locate` is blocked,
   * for `ack`/`ag` or for `locate`; one that merely starts with those letters
   * (`agent`, `locater`) is not.
   */
  lemma AckAgLocateBlockedIff(w: string, rest: string)
    requires w == "ack" || w == "ag" || w == "locate"
    ensures Decide(Parsed(Bash(w + rest))).Block? <==> (rest == "" || !IsWordChar(rest[0]))
    ensures Decide(Parsed(Bash(w + rest))).Block? ==>
              Decide(Parsed(Bash(w + rest))).reason == if w == "locate" then LocateReason else AckReason
  {
    var c := w + rest;
    StartsAtFront(w, rest);
    assert rest != "" ==> c[|w|] == rest[0];
    assert c[|w| - 1] == w[|w| - 1];
    NotStartsAt(c, 0, "grep", 0);
    NotStartsAt(c, 0, "find", 0);
    if w == "ack" {
      NotStartsAt(c, 0, "locate", 0);
      NotStartsAt(c, 0, "ag", 1);
    } else if w == "ag" {
      NotStartsAt(c, 0, "locate", 0);
      assert !StartsWith(c, "ack") by {
        if |c| >= 3 {
          NotStartsAt(c, 0, "ack", 1);
        }
      }
    } else {
      NotStartsAt(c, 0, "ack", 0);
      NotStartsAt(c, 0, "ag", 0);
    }
  }

  /**
   * Every rule looks only at the start of the command: whatever follows a
   * first word that is not a search tool, such as `cd src && grep x` or
   * `cat f | grep x`, is approved.
   */
  lemma LaterSearchToolApproved(first: string, tail: string)
    requires first != "" && first[0] != 'g' && first[0] != 'f' && first[0] != 'a' && first[0] != 'l'
    ensures Decide(Parsed(Bash(first + tail))) == Approve(None)
  {
    var c := first + tail;
    assert c[0] == first[0];
    NotStartsAt(c, 0, "grep", 0);
    NotStartsAt(c, 0, "find", 0);
    NotStartsAt(c, 0, "ack", 0);
    NotStartsAt(c, 0, "ag", 0);
    NotStartsAt(c, 0, "locate", 0);
  }

  /** `rg <args>` is approved, whatever the arguments. */
  lemma RipgrepApproved(args: string)
    ensures Decide(Parsed(Bash("rg " + args))) == Approve(None)
  {
    var first, tail := "r", "g " + args;
    assert first[0] == 'r';
    LaterSearchToolApproved(first, tail);
    assert first + tail == "rg " + args;
  }

  /** A one-line `grep` command without a "|" is blocked. */
  lemma GrepOneLineBlocked(rest: string)
    requires rest == "" || !IsWordChar(rest[0])
    requires '\n' !in rest && '|' !in rest
    ensures Decide(Parsed(Bash("grep" + rest))) == Block(GrepReason)
  {
    IndexOfAbsent(rest, '\n');
    assert FirstLine(rest) == rest;
    GrepBlockedIff(rest);
  }

  /** `grep 'foo' *.py`, which is not part of a pipeline, is blocked. */
  lemma GrepScenarioBlocked()
    ensures Decide(Parsed(Bash("grep 'foo' *.py"))) == Block(GrepReason)
  {
    var rest := " 'foo' *.py";
    assert forall k | 0 <= k < |rest| :: rest[k] != '\n' && rest[k] != '|';
    GrepOneLineBlocked(rest);
    assert "grep" + rest == "grep 'foo' *.py";
  }
}
