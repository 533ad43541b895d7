/**
 * The size guard (hooks/python_file_limits_hook.py): a Write of a Python
 * file is blocked when it has more than 500 lines or defines a function
 * longer than 50 lines or a class longer than 100 lines; an Edit adding more
 * than 50 lines to an existing file is blocked; reading a file longer than
 * 500 lines is approved with a warning.
 */
module PythonFileLimits {
  import opened Hooks
  import opened Strings

  const MaxFileLines := 500
  const MaxFunctionLines := 50
  const MaxClassLines := 100
  const MaxEditLines := 50

  // ---------------------------------------------------------------------
  // Counting lines

  /**
   * The lines of `s`, without their line ends, where `cls` is the class of
   * characters that do not end a line: `NotLineBreak` for `str.splitlines()`,
   * `NotFileBreak` for iterating over a file opened as text. In both, "\r\n"
   * is one line end, and a last line without a line end still counts.
   */
  function Lines(s: string, cls: CharClass): (r: seq<string>)
    requires cls == NotLineBreak || cls == NotFileBreak
    ensures |r| == 0 <==> s == []
    decreases |s|
  {
    if s == [] then []
    else
      var i := RunEnd(s, 0, cls);
      if i == |s| then [s]
      else
        [s[..i]] + Lines(s[i + BreakLength(s, i)..], cls)
  }

  /** The length of the line end at `i`: "\r\n" is one line end of two characters. */
  function BreakLength(s: string, i: nat): (n: nat)
    requires i < |s|
    ensures 1 <= n <= 2 && i + n <= |s|
  {
    if s[i] == '\r' && i + 1 < |s| && s[i + 1] == '\n' then 2 else 1
  }

  /** `count_lines_in_string(content)`, that is `len(content.splitlines())`. */
  function CountLines(s: string): nat {
    |Lines(s, NotLineBreak)|
  }

  /** `sum(1 for _ in f)` over the file's text. */
  function FileLineCount(s: string): nat {
    |Lines(s, NotFileBreak)|
  }

  /** Lines each followed by "\n", as a file or a string is usually written. */
  function Terminated(lines: seq<string>): string {
    if lines == [] then "" else lines[0] + "\n" + Terminated(lines[1..])
  }

  // ---------------------------------------------------------------------
  // Definitions and their spans

  /** The node kinds the analysis distinguishes; `async def` is not a `FunctionDef`. */
  datatype Kind = FunctionDef | AsyncFunctionDef | ClassDef | OtherNode

  /** A node of the syntax tree with its first and last line. */
  datatype Node = Node(kind: Kind, name: string, lineno: int, endLineno: int)

  /** What `ast.parse(content)` gave: a syntax error, or the nodes in the order `ast.walk` visits them. */
  datatype ParseResult = SyntaxError | Tree(nodes: seq<Node>)

  datatype Unit = Function | Class

  datatype Violation = Violation(unit: Unit, name: string, lineno: int, span: int)

  function Span(n: Node): int {
    n.endLineno - n.lineno + 1
  }

  /** The node is a function or a class longer than its limit. */
  predicate OverLimit(n: Node) {
    || (n.kind == FunctionDef && Span(n) > MaxFunctionLines)
    || (n.kind == ClassDef && Span(n) > MaxClassLines)
  }

  /** The violations one node contributes: one when it is over its limit, none otherwise. */
  function NodeViolations(n: Node): (r: seq<Violation>)
    ensures |r| <= 1 && (r != [] <==> OverLimit(n))
    ensures r != [] ==> r[0].name == n.name && r[0].lineno == n.lineno && r[0].span == Span(n)
    ensures r != [] ==> (r[0].unit == Function <==> n.kind == FunctionDef)
  {
    if n.kind == FunctionDef && Span(n) > MaxFunctionLines then [Violation(Function, n.name, n.lineno, Span(n))]
    else if n.kind == ClassDef && Span(n) > MaxClassLines then [Violation(Class, n.name, n.lineno, Span(n))]
    else []
  }

  /** The violations of all the nodes, in the order the nodes are visited. */
  function ViolationsOf(nodes: seq<Node>): seq<Violation> {
    if nodes == [] then []
    else ViolationsOf(nodes[..|nodes| - 1]) + NodeViolations(nodes[|nodes| - 1])
  }

  function ViolationsFrom(parse: ParseResult): seq<Violation> {
    match parse
    case SyntaxError => []
    case Tree(nodes) => ViolationsOf(nodes)
  }

  /** `analyze_python_code`: a visit of the nodes that appends each violation found. */
  method AnalyzePythonCode(parse: ParseResult) returns (violations: seq<Violation>)
    ensures violations == ViolationsFrom(parse)
  {
    violations := [];
    if parse.SyntaxError? {
      return;
    }
    var nodes := parse.nodes;
    var i := 0;
    while i < |nodes|
      invariant 0 <= i <= |nodes|
      invariant violations == ViolationsOf(nodes[..i])
    {
      var node := nodes[i];
      if node.kind == FunctionDef {
        var funcLines := node.endLineno - node.lineno + 1;
        if funcLines > MaxFunctionLines {
          violations := violations + [Violation(Function, node.name, node.lineno, funcLines)];
        }
      } else if node.kind == ClassDef {
        var classLines := node.endLineno - node.lineno + 1;
        if classLines > MaxClassLines {
          violations := violations + [Violation(Class, node.name, node.lineno, classLines)];
        }
      }
      assert nodes[..i + 1][..i] == nodes[..i];
      i := i + 1;
    }
    assert nodes[..i] == nodes;
  }

  // ---------------------------------------------------------------------
  // Messages

  function RenderViolation(v: Violation): string {
    match v.unit
    case Function =>
      "Function '" + v.name + "' at line " + IntToString(v.lineno) + " is " + IntToString(v.span) + " lines (max 50)"
    case Class =>
      "Class '" + v.name + "' at line " + IntToString(v.lineno) + " is " + IntToString(v.span) + " lines (max 100)"
  }

  /** One bullet per violation, in order. */
  function Bullets(vs: seq<Violation>): (r: seq<string>)
    ensures |r| == |vs|
    ensures forall k | 0 <= k < |vs| :: r[k] == "  - " + RenderViolation(vs[k])
  {
    if vs == [] then [] else ["  - " + RenderViolation(vs[0])] + Bullets(vs[1..])
  }

  const StructureHeader := "Code structure violations per CLAUDE.md:\n"

  function StructureReason(vs: seq<Violation>): string {
    StructureHeader + JoinWith(Bullets(vs), "\n")
  }

  function TooLongReason(n: int): string {
    "File would be " + IntToString(n) + " lines (max 500). Per CLAUDE.md: Split into multiple modules."
  }

  function EditReason(n: int): string {
    "Edit adds " + IntToString(n) + " lines. Consider breaking into smaller edits or refactoring."
  }

  function ReadWarning(n: int): string {
    "WARNING: File has " + IntToString(n) + " lines (exceeds 500). Per CLAUDE.md: This file should be refactored."
  }

  // ---------------------------------------------------------------------
  // The decision

  /** The Write rules: the line limit first, then the structure analysis of the parsed content. */
  function WriteDecision(content: string, parse: ParseResult): (d: Decision)
    ensures d.Approve? ==> d.note.None?
  {
    var lineCount := CountLines(content);
    if lineCount > MaxFileLines then Block(TooLongReason(lineCount))
    else
      var violations := ViolationsFrom(parse);
      if violations != [] then Block(StructureReason(violations)) else Approve(None)
  }

  /**
   * `main()`. `parse` is what `ast.parse` makes of a written file's content;
   * `disk` is the current text of the named file, or `None` when it does not
   * exist or cannot be read.
   */
  function Decide(input: Input, parse: ParseResult, disk: Option<string>): (d: Decision)
    ensures d.Block? ==> input.Parsed? && (input.event.Write? || input.event.Edit?)
    ensures d.Approve? && d.note.Some? ==> input.Malformed? || input.event.Read?
  {
    match input
    case Malformed(error) => ParseFailure(error)
    case Parsed(e) =>
      if ChangesFile(e) then
        if !EndsWith(e.filePath, ".py") then Approve(None)
        else if e.Write? then WriteDecision(e.content, parse)
        else if e.Edit? && disk.Some? && CountLines(e.newString) > MaxEditLines then
          Block(EditReason(CountLines(e.newString)))
        else Approve(None)
      else if e.Read? && EndsWith(e.filePath, ".py") && disk.Some? && FileLineCount(disk.value) > MaxFileLines then
        Approve(Some(ReadWarning(FileLineCount(disk.value))))
      else Approve(None)
  }

  // ---------------------------------------------------------------------
  // Properties of line counting

  /** A line without line ends, followed by "\n", is split off as the first line. */
  lemma TerminatedLineStep(l: string, rest: string, cls: CharClass)
    requires cls == NotLineBreak || cls == NotFileBreak
    requires Run(l, 0, |l|, cls)
    ensures Lines(l + "\n" + rest, cls) == [l] + Lines(rest, cls)
  {
    var s := l + "\n" + rest;
    assert s == "" + l + ("\n" + rest);
    RunEndOfConcat("", l, "\n" + rest, cls);
    assert s[|l|] == '\n' && BreakLength(s, |l|) == 1;
    LinesStep(s, cls);
    assert s[..|l|] == l;
    assert s[|l| + 1..] == rest;
  }

  /** Lines without line ends, each written with a "\n", split back into themselves. */
  lemma {:induction false} LinesOfTerminated(lines: seq<string>, cls: CharClass)
    requires cls == NotLineBreak || cls == NotFileBreak
    requires forall l <- lines :: Run(l, 0, |l|, cls)
    ensures Lines(Terminated(lines), cls) == lines
  {
    if lines != [] {
      var l, tail := lines[0], lines[1..];
      assert Run(l, 0, |l|, cls) by {
        assert l in lines;
      }
      assert forall q <- tail :: Run(q, 0, |q|, cls) by {
        forall q <- tail
          ensures Run(q, 0, |q|, cls)
        {
          assert q in lines;
        }
      }
      assert Terminated(lines) == l + "\n" + Terminated(tail);
      TerminatedLineStep(l, Terminated(tail), cls);
      LinesOfTerminated(tail, cls);
    }
  }

  lemma LinesStep(s: string, cls: CharClass)
    requires cls == NotLineBreak || cls == NotFileBreak
    requires s != [] && RunEnd(s, 0, cls) < |s|
    ensures Lines(s, cls) == [s[..RunEnd(s, 0, cls)]] + Lines(s[RunEnd(s, 0, cls) + BreakLength(s, RunEnd(s, 0, cls))..], cls)
  {
  }

  /** A single line followed by "\n" is still that line. */
  lemma OneLineTerminated(s: string, cls: CharClass)
    requires cls == NotLineBreak || cls == NotFileBreak
    requires s != [] && RunEnd(s, 0, cls) == |s|
    ensures Lines(s + "\n", cls) == Lines(s, cls) == [s]
  {
    var t := s + "\n";
    assert forall k | 0 <= k < |s| :: t[k] == s[k];
    assert Run(t, 0, |s|, cls) && t[|s|] == '\n';
    RunEndAt(t, 0, |s|, cls);
    LinesStep(t, cls);
    assert t[..|s|] == s && t[|s| + 1..] == [];
  }

  /** Where `s` has a line end before its last character, `s + "\n"` has the same first line end. */
  lemma FirstBreakKept(s: string, cls: CharClass)
    requires cls == NotLineBreak || cls == NotFileBreak
    requires s != [] && InClass(s[|s| - 1], cls) && RunEnd(s, 0, cls) < |s|
    ensures var i := RunEnd(s, 0, cls);
            && RunEnd(s + "\n", 0, cls) == i
            && BreakLength(s + "\n", i) == BreakLength(s, i)
            && i + BreakLength(s, i) < |s|
  {
    var t := s + "\n";
    var i := RunEnd(s, 0, cls);
    assert forall k | 0 <= k < |s| :: t[k] == s[k];
    RunEndAt(t, 0, i, cls);
  }

  lemma SplitBeforeEnd(s: string, cls: CharClass)
    requires cls == NotLineBreak || cls == NotFileBreak
    requires s != [] && InClass(s[|s| - 1], cls) && RunEnd(s, 0, cls) < |s|
    ensures var i := RunEnd(s, 0, cls);
            var n := BreakLength(s, i);
            && RunEnd(s + "\n", 0, cls) == i && BreakLength(s + "\n", i) == n && i + n < |s|
            && (s + "\n")[..i] == s[..i] && (s + "\n")[i + n..] == s[i + n..] + "\n"
  {
    var t := s + "\n";
    var i := RunEnd(s, 0, cls);
    FirstBreakKept(s, cls);
    var n := BreakLength(s, i);
    assert t[..i] == s[..i];
    assert t[i + n..] == s[i + n..] + "\n";
  }

  /**
   * A "\n" after a last character that does not end a line adds no line:
   * it only terminates the last one.
   */
  lemma {:induction false} TrailingNewlineAddsNoLine(s: string, cls: CharClass)
    requires cls == NotLineBreak || cls == NotFileBreak
    requires s != [] && InClass(s[|s| - 1], cls)
    ensures Lines(s + "\n", cls) == Lines(s, cls)
    decreases |s|
  {
    var i := RunEnd(s, 0, cls);
    if i == |s| {
      OneLineTerminated(s, cls);
    } else {
      var t := s + "\n";
      SplitBeforeEnd(s, cls);
      var n := BreakLength(s, i);
      var rest := s[i + n..];
      LinesStep(s, cls);
      assert Lines(s, cls) == [s[..i]] + Lines(rest, cls);
      LinesStep(t, cls);
      assert t[i + n..] == rest + "\n";
      assert Lines(t, cls) == [s[..i]] + Lines(rest + "\n", cls);
      assert rest[|rest| - 1] == s[|s| - 1];
      TrailingNewlineAddsNoLine(rest, cls);
    }
  }

  /** `"".splitlines()` is empty, and one "\n" alone is one (empty) line. */
  lemma CountLinesSmall()
    ensures CountLines("") == 0
    ensures CountLines("\n") == 1
  {
    assert RunEnd("\n", 0, NotLineBreak) == 0;
    assert "\n"[1..] == [];
  }

  // ---------------------------------------------------------------------
  // Properties of the analysis

  /** The violations of consecutive node sequences are the violations of each, in order. */
  lemma {:induction false} ViolationsOfAppend(a: seq<Node>, b: seq<Node>)
    ensures ViolationsOf(a + b) == ViolationsOf(a) + ViolationsOf(b)
    decreases |b|
  {
    if b != [] {
      var b' := b[..|b| - 1];
      assert (a + b)[..|a + b| - 1] == a + b';
      assert (a + b)[|a + b| - 1] == b[|b| - 1];
      ViolationsOfAppend(a, b');
    } else {
      assert a + b == a;
    }
  }

  /**
   * Exactly the functions and classes over their limits are reported: each
   * reported violation comes from a node over its limit, and each such node
   * is reported, with its name, its first line and its span.
   */
  lemma {:induction false} ViolationsExactly(nodes: seq<Node>)
    ensures forall v <- ViolationsOf(nodes) :: exists n <- nodes :: OverLimit(n) && NodeViolations(n) == [v]
    ensures forall n <- nodes :: OverLimit(n) ==> NodeViolations(n)[0] in ViolationsOf(nodes)
    ensures |ViolationsOf(nodes)| <= |nodes|
  {
    if nodes != [] {
      var init, last := nodes[..|nodes| - 1], nodes[|nodes| - 1];
      ViolationsExactly(init);
      assert forall n <- init :: n in nodes;
      assert last in nodes;
      assert nodes == init + [last];
      forall n <- nodes | OverLimit(n)
        ensures NodeViolations(n)[0] in ViolationsOf(nodes)
      {
        if n != last {
          assert n in init;
        }
      }
    }
  }

  /** A function of exactly 50 lines and a class of exactly 100 lines are within their limits. */
  lemma SpansAtLimitPass(name: string, start: int)
    ensures ViolationsOf([Node(FunctionDef, name, start, start + 49)]) == []
    ensures ViolationsOf([Node(ClassDef, name, start, start + 99)]) == []
    ensures ViolationsOf([Node(FunctionDef, name, start, start + 50)]) == [Violation(Function, name, start, 51)]
  {
    assert [Node(FunctionDef, name, start, start + 49)][..0] == [];
    assert [Node(ClassDef, name, start, start + 99)][..0] == [];
    assert [Node(FunctionDef, name, start, start + 50)][..0] == [];
  }

  /** `async def` functions are never reported, however long. */
  lemma {:induction false} AsyncFunctionsUnchecked(nodes: seq<Node>)
    requires forall n <- nodes :: n.kind == AsyncFunctionDef
    ensures ViolationsOf(nodes) == []
  {
    if nodes != [] {
      assert nodes[|nodes| - 1] in nodes;
      assert forall n <- nodes[..|nodes| - 1] :: n in nodes;
      AsyncFunctionsUnchecked(nodes[..|nodes| - 1]);
    }
  }

  // ---------------------------------------------------------------------
  // Properties of the decision

  /** A file-changing event on a path that does not end in `.py` is approved. */
  lemma NonPythonApproved(e: Event, parse: ParseResult, disk: Option<string>)
    requires ChangesFile(e) && !EndsWith(e.filePath, ".py")
    ensures Decide(Parsed(e), parse, disk) == Approve(None)
  {
  }

  /** A Write of a Python file is decided by the Write rules alone. */
  lemma PythonWriteDecision(path: string, content: string, parse: ParseResult, disk: Option<string>)
    requires EndsWith(path, ".py")
    ensures Decide(Parsed(Write(path, content)), parse, disk) == WriteDecision(content, parse)
  {
  }

  /** A Write of more than 500 lines is blocked for its length, before its structure is looked at. */
  lemma LongWriteBlocked(content: string, parse: ParseResult)
    requires CountLines(content) > MaxFileLines
    ensures WriteDecision(content, parse) == Block(TooLongReason(CountLines(content)))
  {
  }

  /** A Write within the line limit is blocked exactly when the analysis reports a violation. */
  lemma WriteWithinLimit(content: string, parse: ParseResult)
    requires CountLines(content) <= MaxFileLines
    ensures WriteDecision(content, parse).Block? <==> ViolationsFrom(parse) != []
    ensures ViolationsFrom(parse) != [] ==> WriteDecision(content, parse) == Block(StructureReason(ViolationsFrom(parse)))
  {
  }

  /** A Write that fails to parse is never blocked for its structure. */
  lemma SyntaxErrorPasses(content: string)
    requires CountLines(content) <= MaxFileLines
    ensures WriteDecision(content, SyntaxError) == Approve(None)
  {
  }

  lemma DecimalHasNoNewline(n: int)
    ensures '\n' !in IntToString(n)
  {
    var m := if n < 0 then -n else n;
    assert forall ch <- NatToString(m) :: IsDigit(ch);
  }

  /** A violation renders on one line when the unit's name has no newline. */
  lemma RenderOneLine(v: Violation)
    requires '\n' !in v.name
    ensures '\n' !in "  - " + RenderViolation(v)
  {
    DecimalHasNoNewline(v.lineno);
    DecimalHasNoNewline(v.span);
  }

  /**
   * The structure reason lists the violations one per line, in order: the
   * text after its first line splits back into exactly the bullets.
   */
  lemma StructureReasonLines(vs: seq<Violation>)
    requires vs != []
    requires forall v <- vs :: '\n' !in v.name
    ensures StructureReason(vs) == StructureHeader + JoinWith(Bullets(vs), "\n")
    ensures Split(JoinWith(Bullets(vs), "\n"), '\n') == Bullets(vs)
  {
    var bs := Bullets(vs);
    forall b <- bs
      ensures '\n' !in b
    {
      var k :| 0 <= k < |bs| && bs[k] == b;
      assert vs[k] in vs;
      RenderOneLine(vs[k]);
    }
    SplitJoin(bs, '\n');
  }

  /** An Edit of a Python file is blocked exactly when the file can be read and the new text has more than 50 lines. */
  lemma EditBlockedIff(path: string, oldText: string, newText: string, parse: ParseResult, disk: Option<string>)
    requires EndsWith(path, ".py")
    ensures Decide(Parsed(Edit(path, oldText, newText)), parse, disk).Block? <==> disk.Some? && CountLines(newText) > MaxEditLines
  {
  }

  /** A MultiEdit is never blocked. */
  lemma MultiEditNeverBlocked(path: string, news: seq<string>, parse: ParseResult, disk: Option<string>)
    ensures Decide(Parsed(MultiEdit(path, news)), parse, disk) == Approve(None)
  {
  }

  /** A Read is never blocked; it carries a warning exactly for a readable `.py` file over 500 lines. */
  lemma ReadNeverBlocked(path: string, parse: ParseResult, disk: Option<string>)
    ensures Decide(Parsed(Read(path)), parse, disk).Approve?
    ensures Decide(Parsed(Read(path)), parse, disk).note.Some? <==>
              EndsWith(path, ".py") && disk.Some? && FileLineCount(disk.value) > MaxFileLines
  {
  }
}
