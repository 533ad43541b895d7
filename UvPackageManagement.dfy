/**
 * The package-manager guard (hooks/uv_package_management_hook.py):
 * dependency changes written straight into pyproject.toml are refused, and
 * so are Bash commands that use pip, poetry, a bare interpreter or tool
 * outside the virtual environment, or `python -m venv`.
 */
module UvPackageManagement {
  import opened Hooks
  import opened Strings

  const ManifestReason :=
    "NEVER update dependencies directly in pyproject.toml! "
    + "Per CLAUDE.md: Always use UV commands:\n"
    + "  - Add package: uv add <package>\n"
    + "  - Add dev dependency: uv add --dev <package>\n"
    + "  - Remove package: uv remove <package>\n"
    + "  - Update all: uv sync"

  const PipReason :=
    "Use UV instead of pip! Per CLAUDE.md:\n"
    + "  - Install packages: uv add <package>\n"
    + "  - Install dev dependencies: uv add --dev <package>\n"
    + "  - Sync all dependencies: uv sync"

  const PoetryReason :=
    "Use UV instead of Poetry! Per CLAUDE.md:\n"
    + "  - Add package: uv add <package>\n"
    + "  - Remove package: uv remove <package>\n"
    + "  - Install all: uv sync"

  const InterpreterReason :=
    "Use UV or venv_linux for Python commands! Per CLAUDE.md:\n"
    + "  Preferred: uv run python script.py\n"
    + "  Or: uv run pytest\n"
    + "  Or: ./venv_linux/bin/python script.py\n"
    + "Always use the virtual environment."

  const VenvReason :=
    "Use UV to manage virtual environments! Per CLAUDE.md:\n"
    + "  Create venv: uv venv\n"
    + "  Use specific Python: uv python install 3.12"

  // ---------------------------------------------------------------------
  // The manifest rule

  /** The text the manifest rule inspects: the new content, the new string, or every new string joined by spaces. */
  function InspectedText(e: Event): string
    requires ChangesFile(e)
  {
    match e
    case Write(_, content) => content
    case Edit(_, _, newString) => newString
    case MultiEdit(_, newStrings) => JoinWith(newStrings, " ")
  }

  /** The three shapes of the dependency patterns. */
  datatype DepPattern =
    | Header(lit: string)      // a literal table header such as `\[project\.dependencies\]`
    | Assignment(key: string)  // `key\s*=\s*\[`
    | Version(op: string)      // `"[^"]+op[\d\.]+"`

  const DepPatterns: seq<DepPattern> := [
    Header("[tool.uv.dependencies]"),
    Header("[project.dependencies]"),
    Header("[tool.uv.dev-dependencies]"),
    Assignment("dependencies"),
    Assignment("requires"),
    Version("=="),
    Version(">="),
    Version("~=")
  ]

  /** `key\s*=\s*\[` at `i`, its whitespace ending at `j` and `k`. */
  predicate AssignmentAt(t: string, key: string, i: int, j: int, k: int) {
    && StartsAt(t, i, key) && i + |key| <= j < k < |t|
    && Run(t, i + |key|, j, Space) && t[j] == '='
    && Run(t, j + 1, k, Space) && t[k] == '['
  }

  /** `"[^"]+op[\d\.]+"` with the opening quote at `i`, the operator at `j` and the closing quote at `k`. */
  predicate VersionAt(t: string, op: string, i: int, j: int, k: int) {
    && 0 <= i && i + 1 < j && j + |op| < k < |t|
    && t[i] == '"' && Run(t, i + 1, j, NotDoubleQuote)
    && StartsAt(t, j, op) && Run(t, j + |op|, k, DigitOrDot) && t[k] == '"'
  }

  /** `re.search(pattern, t)` for one pattern on a text already lower-cased. */
  predicate Matches(p: DepPattern, t: string) {
    match p
    case Header(lit) => Contains(t, lit)
    case Assignment(key) => exists i, j, k | 0 <= i <= j < k < |t| :: AssignmentAt(t, key, i, j, k)
    case Version(op) => exists i, j, k | 0 <= i < j < k < |t| :: VersionAt(t, op, i, j, k)
  }

  /**
   * Some dependency pattern matches, ignoring case. The patterns are all
   * lower case, so matching them against the lower-cased text is matching
   * them with `re.IGNORECASE` (for ASCII letters).
   */
  predicate DependencyEdit(t: string) {
    exists n | 0 <= n < |DepPatterns| :: Matches(DepPatterns[n], Lower(t))
  }

  function FileDecision(e: Event): (d: Decision)
    requires ChangesFile(e)
    ensures d.Block? ==> EndsWith(e.filePath, "pyproject.toml")
  {
    if EndsWith(e.filePath, "pyproject.toml") && DependencyEdit(InspectedText(e))
    then Block(ManifestReason)
    else Approve(None)
  }

  // ---------------------------------------------------------------------
  // The command rules

  /** `\bword\s+` at `i`, with the whitespace ending at `j`. */
  predicate WordThenSpace(c: string, word: string, i: int, j: int) {
    Boundary(c, i) && StartsAt(c, i, word) && i + |word| < j <= |c| && Run(c, i + |word|, j, Space)
  }

  /** `\bpip\s+install\b` */
  predicate PipInstall(c: string) {
    exists i, j | 0 <= i < j <= |c| ::
      WordThenSpace(c, "pip", i, j) && StartsAt(c, j, "install") && Boundary(c, j + 7)
  }

  const PoetryVerbs: seq<string> := ["add", "install", "remove"]

  /** `\bpoetry\s+(add|install|remove)\b` */
  predicate PoetryCommand(c: string) {
    exists i, j, v | 0 <= i < j <= |c| && 0 <= v < |PoetryVerbs| ::
      WordThenSpace(c, "poetry", i, j) && StartsAt(c, j, PoetryVerbs[v]) && Boundary(c, j + |PoetryVerbs[v]|)
  }

  const Interpreters: seq<string> := ["python", "python3", "pytest", "mypy", "ruff"]

  /** `^name\s+` for one of the interpreters and tools. */
  predicate BareInterpreter(c: string) {
    exists n | 0 <= n < |Interpreters| ::
      StartsWith(c, Interpreters[n]) && |Interpreters[n]| < |c| && IsSpace(c[|Interpreters[n]|])
  }

  /** `python\s+-m\s+venv\b` */
  predicate CreatesVenv(c: string) {
    exists i, j, k | 0 <= i && i + 6 < j && j + 2 < k && k + 4 <= |c| ::
      && StartsAt(c, i, "python") && Run(c, i + 6, j, Space)
      && StartsAt(c, j, "-m") && Run(c, j + 2, k, Space)
      && StartsAt(c, k, "venv") && Boundary(c, k + 4)
  }

  /** pip, then poetry, then a bare interpreter outside uv and venv_linux, then venv creation. */
  function BashDecision(c: string): (d: Decision)
    ensures d.Block? ==> PipInstall(c) || PoetryCommand(c) || BareInterpreter(c) || CreatesVenv(c)
  {
    if PipInstall(c) then Block(PipReason)
    else if PoetryCommand(c) then Block(PoetryReason)
    else if BareInterpreter(c) && !StartsWith(c, "uv run")
            && !Contains(c, "venv_linux") && !Contains(c, "./venv_linux")
    then Block(InterpreterReason)
    else if CreatesVenv(c) then Block(VenvReason)
    else Approve(None)
  }

  /** `main()`: the file tools, then Bash; anything else is approved. */
  function Decide(input: Input): (d: Decision)
    ensures d.Block? ==> input.Parsed? && (ChangesFile(input.event) || input.event.Bash?)
  {
    match input
    case Malformed(error) => ParseFailure(error)
    case Parsed(e) =>
      if ChangesFile(e) then FileDecision(e)
      else if e.Bash? then BashDecision(e.command)
      else Approve(None)
  }

  // ---------------------------------------------------------------------
  // Properties of the manifest rule

  /** Changes to any file but pyproject.toml are approved without a note. */
  lemma OtherFilesApproved(e: Event)
    requires ChangesFile(e) && !EndsWith(e.filePath, "pyproject.toml")
    ensures Decide(Parsed(e)) == Approve(None)
  {
  }

  /** A manifest change is refused exactly when the inspected text matches a dependency pattern. */
  lemma ManifestBlockedIff(e: Event)
    requires ChangesFile(e) && EndsWith(e.filePath, "pyproject.toml")
    ensures Decide(Parsed(e)).Block? <==> DependencyEdit(InspectedText(e))
    ensures e.MultiEdit? ==> (Decide(Parsed(e)).Block? <==> DependencyEdit(JoinWith(e.newStrings, " ")))
  {
  }

  lemma LowerTwice(s: string)
    ensures Lower(Lower(s)) == Lower(s)
  {
    forall k | 0 <= k < |s|
      ensures Lower(Lower(s))[k] == Lower(s)[k]
    {
    }
  }

  /** Case does not matter: a text and its lower-cased form are refused alike. */
  lemma CaseIgnored(t: string)
    ensures DependencyEdit(Lower(t)) <==> DependencyEdit(t)
  {
    LowerTwice(t);
  }

  /** Lower-casing keeps quotes and the characters of a version. */
  lemma LowerKeeps(s: string, k: int)
    requires 0 <= k < |s| && !('A' <= s[k] <= 'Z')
    ensures Lower(s)[k] == s[k]
  {
  }

  /**
   * A quoted requirement pinned with `==`, `>=` or `~=` to a version made of
   * digits and dots is refused, whatever the package name.
   */
  lemma QuotedPinMatches(name: string, n: nat, ver: string)
    requires 5 <= n < |DepPatterns|
    requires name != [] && '"' !in name
    requires ver != [] && forall x | 0 <= x < |ver| :: IsDigit(ver[x]) || ver[x] == '.'
    ensures DependencyEdit("\"" + name + DepPatterns[n].op + ver + "\"")
  {
    var op := DepPatterns[n].op;
    var t := "\"" + name + op + ver + "\"";
    var l := Lower(t);
    var j := 1 + |name|;
    var k := j + |op| + |ver|;
    assert |op| == 2;
    assert t[0] == '"' && t[k] == '"';
    LowerKeeps(t, 0);
    LowerKeeps(t, k);
    forall x | 1 <= x < j
      ensures l[x] != '"'
    {
      assert t[x] == name[x - 1];
      assert name[x - 1] in name;
    }
    forall x | 0 <= x < |op|
      ensures l[j + x] == op[x]
    {
      assert t[j + x] == op[x];
      LowerKeeps(t, j + x);
    }
    assert l[j..j + |op|] == op;
    forall x | j + |op| <= x < k
      ensures IsDigit(l[x]) || l[x] == '.'
    {
      assert t[x] == ver[x - j - |op|];
      LowerKeeps(t, x);
    }
    assert VersionAt(l, op, 0, j, k);
    assert Matches(DepPatterns[n], l);
  }

  /** A header anywhere in one edit of a MultiEdit is seen in the joined text. */
  lemma {:induction false} JoinedKeepsHeader(news: seq<string>, k: nat, lit: string)
    requires k < |news| && Contains(Lower(news[k]), lit)
    ensures Contains(Lower(JoinWith(news, " ")), lit)
  {
    if |news| > 1 {
      var rest := JoinWith(news[1..], " ");
      assert JoinWith(news, " ") == news[0] + (" " + rest);
      LowerAppend(news[0], " " + rest);
      LowerAppend(" ", rest);
      if k > 0 {
        assert news[1..][k - 1] == news[k];
        JoinedKeepsHeader(news[1..], k - 1, lit);
        ContainsInConcat(Lower(" "), Lower(rest), lit);
      }
      ContainsInConcat(Lower(news[0]), Lower(" " + rest), lit);
    }
  }

  /** So a MultiEdit is refused when any one of its edits writes a dependency table header. */
  lemma MultiEditHeaderBlocked(filePath: string, news: seq<string>, k: nat, n: nat)
    requires EndsWith(filePath, "pyproject.toml") && k < |news| && n < 3
    requires Contains(Lower(news[k]), DepPatterns[n].lit)
    ensures Decide(Parsed(MultiEdit(filePath, news))) == Block(ManifestReason)
  {
    JoinedKeepsHeader(news, k, DepPatterns[n].lit);
    assert Matches(DepPatterns[n], Lower(JoinWith(news, " ")));
  }

  // ---------------------------------------------------------------------
  // Properties of the command rules

  /** pip is checked first: `pip install` is refused even under `uv run`. */
  lemma PipFirst(c: string)
    requires PipInstall(c)
    ensures Decide(Parsed(Bash(c))) == Block(PipReason)
  {
  }

  /** The interpreter patterns all start with a letter other than `u`. */
  lemma BareNotUvRun(c: string)
    ensures BareInterpreter(c) ==> !StartsWith(c, "uv run")
  {
    if BareInterpreter(c) {
      var n :| 0 <= n < |Interpreters| && StartsWith(c, Interpreters[n]);
      StartsAtChar(c, 0, Interpreters[n], 0);
      if StartsWith(c, "uv run") {
        StartsAtChar(c, 0, "uv run", 0);
      }
    }
  }

  /** `./venv_linux` holds `venv_linux`. */
  lemma DotVenvHoldsVenv(c: string)
    ensures Contains(c, "./venv_linux") ==> Contains(c, "venv_linux")
  {
    if Contains(c, "./venv_linux") {
      ContainsSlice(c, "./venv_linux", 2, 12);
      assert "./venv_linux"[2..12] == "venv_linux";
    }
  }

  /**
   * Past the pip and poetry rules, a bare interpreter is refused exactly
   * when the command does not mention venv_linux: the `uv run` and
   * `./venv_linux` exemptions can never apply on their own.
   */
  lemma BareInterpreterIff(c: string)
    requires !PipInstall(c) && !PoetryCommand(c)
    ensures Decide(Parsed(Bash(c))) == Block(InterpreterReason) <==>
              BareInterpreter(c) && !Contains(c, "venv_linux")
  {
    BareNotUvRun(c);
    DotVenvHoldsVenv(c);
    assert |InterpreterReason| != |VenvReason|;
  }

  /** `python -m venv` is refused when nothing earlier applies, under `uv run` too. */
  lemma VenvCreationBlocked(c: string)
    requires CreatesVenv(c) && !PipInstall(c) && !PoetryCommand(c)
    ensures Decide(Parsed(Bash(c))).Block?
    ensures StartsWith(c, "uv run") ==> Decide(Parsed(Bash(c))) == Block(VenvReason)
  {
    BareNotUvRun(c);
  }

  /** A command is approved exactly when no rule applies. */
  lemma BashApprovedIff(c: string)
    ensures Decide(Parsed(Bash(c))) == Approve(None) <==>
              && !PipInstall(c) && !PoetryCommand(c) && !CreatesVenv(c)
              && !(BareInterpreter(c) && !Contains(c, "venv_linux"))
  {
    BareNotUvRun(c);
    DotVenvHoldsVenv(c);
  }

  /** `pip`, whitespace, `install` and then the end or a non-word character is refused. */
  lemma PipInstallBlocked(sp: string, post: string)
    requires sp != [] && forall x | 0 <= x < |sp| :: IsSpace(sp[x])
    requires post == [] || !IsWordChar(post[0])
    ensures Decide(Parsed(Bash("pip" + sp + "install" + post))) == Block(PipReason)
  {
    var c := "pip" + sp + "install" + post;
    var j := 3 + |sp|;
    assert c[..3] == "pip";
    assert forall x | 3 <= x < j :: c[x] == sp[x - 3];
    assert c[j..j + 7] == "install";
    assert j + 7 < |c| ==> c[j + 7] == post[0];
    assert c[j + 6] == 'l';
    assert WordThenSpace(c, "pip", 0, j);
  }

  /** Tools other than Write, Edit, MultiEdit and Bash are approved without a note. */
  lemma OtherToolsApproved(e: Event)
    requires !ChangesFile(e) && !e.Bash?
    ensures Decide(Parsed(e)) == Approve(None)
  {
  }
}
