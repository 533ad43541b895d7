/**
 * The git guard (hooks/git_commit_standards_hook.py). For `git commit` it
 * blocks AI references anywhere in the command and, when a `-m` message can
 * be extracted, messages that are both off the conventional header format
 * and shorter than 10 characters. For `git push` it blocks pushes that name
 * a protected branch and force pushes without `--force-with-lease`.
 */
module GitCommitStandards {
  import opened Hooks
  import opened Strings

  const AiReferenceReason :=
    "Never include 'Claude Code' or AI references in commit messages! "
    + "Per CLAUDE.md: Write professional commit messages without "
    + "mentioning AI assistance.\n\n"
    + "Format: <type>(<scope>): <subject>\n"
    + "Types: feat, fix, docs, style, refactor, test, chore"

  const ShortMessageReason :=
    "Commit message too short or incorrect format! Per CLAUDE.md:\n"
    + "Format: <type>(<scope>): <subject>\n\n"
    + "Examples:\n"
    + "  feat(auth): add two-factor authentication\n"
    + "  fix(api): resolve timeout issue in payment endpoint\n"
    + "  docs: update API documentation\n"
    + "  refactor(database): optimize query performance"

  const ProtectedPushReason :=
    "Don't push directly to main/master! Per CLAUDE.md:\n"
    + "Follow GitHub Flow:\n"
    + "  1. Create feature branch: git checkout -b feature/name\n"
    + "  2. Push feature branch: git push origin feature/name\n"
    + "  3. Create Pull Request\n"
    + "  4. Review and merge via PR"

  const ForcePushReason :=
    "Never use 'git push --force'!\n"
    + "Use 'git push --force-with-lease' instead for safety.\n"
    + "This prevents overwriting others' work."

  // ---------------------------------------------------------------------
  // Recognising a commit

  /** `\bgit\s+commit\b` matched with `git` at `i` and `commit` at `j`. */
  predicate CommitAt(c: string, i: int, j: int) {
    && 0 <= i && i + 3 < j <= |c|
    && Boundary(c, i) && StartsAt(c, i, "git") && Run(c, i + 3, j, Space)
    && StartsAt(c, j, "commit") && Boundary(c, j + 6)
  }

  /** `\bgit\s+commit\b` */
  predicate CommitCommand(c: string) {
    exists i, j | 0 <= i && i + 3 < j <= |c| :: CommitAt(c, i, j)
  }

  /**
   * A prohibited phrase given as its words: the words occur at `i` in order,
   * separated by runs of at least one whitespace character (`\s+`).
   */
  predicate PhraseAt(s: string, i: int, words: seq<string>)
    decreases |words|
  {
    if |words| == 0 then true
    else
      && StartsAt(s, i, words[0])
      && (|words| == 1 ||
          exists j | i + |words[0]| < j <= |s| ::
            Run(s, i + |words[0]|, j, Space) && PhraseAt(s, j, words[1..]))
  }

  /** The patterns searched for in the lower-cased command, in their order. */
  const ProhibitedPhrases: seq<seq<string>> := [
    ["claude", "code"],
    ["written", "by", "claude"],
    ["generated", "by", "claude"],
    ["claude", "ai"],
    ["anthropic"],
    ["\U{1F916}"]
  ]

  /** Some prohibited phrase occurs somewhere in the lower-cased command. */
  predicate HasProhibitedPhrase(c: string) {
    var lc := Lower(c);
    exists p, i | p in ProhibitedPhrases && 0 <= i <= |lc| :: PhraseAt(lc, i, p)
  }

  // ---------------------------------------------------------------------
  // Extracting the message: `-m\s+["']([^"']+)["']`

  predicate IsQuote(ch: char) {
    ch == '"' || ch == '\''
  }

  /**
   * The pattern matched at `i`: `-m`, blanks up to the opening quote at `j`,
   * the message `c[j + 1..k]`, and a closing quote at `k`.
   */
  predicate MatchAt(c: string, i: int, j: int, k: int) {
    && StartsAt(c, i, "-m") && i + 2 < j && j + 1 < k < |c|
    && Run(c, i + 2, j, Space) && IsQuote(c[j])
    && Run(c, j + 1, k, NotQuote) && IsQuote(c[k])
  }

  /**
   * The matcher at one position: the blank run and the message are each
   * taken whole, since what must follow them cannot belong to them.
   */
  function MessageAt(c: string, i: nat): (r: Option<string>)
    requires i <= |c|
  {
    if !StartsAt(c, i, "-m") then None
    else
      var j := RunEnd(c, i + 2, Space);
      if j == i + 2 || j == |c| || !IsQuote(c[j]) then None
      else
        var k := RunEnd(c, j + 1, NotQuote);
        if k == j + 1 || k == |c| then None else Some(c[j + 1..k])
  }

  /** `re.search` from position `i`: the match that starts leftmost. */
  function ExtractFrom(c: string, i: nat): (r: Option<string>)
    requires i <= |c|
    decreases |c| - i
  {
    if MessageAt(c, i).Some? then MessageAt(c, i)
    else if i == |c| then None
    else ExtractFrom(c, i + 1)
  }

  /** The message of the first `-m` argument that the pattern matches, if any. */
  function ExtractMessage(c: string): Option<string> {
    ExtractFrom(c, 0)
  }

  // ---------------------------------------------------------------------
  // The header format: `^(feat|fix|docs|style|refactor|test|chore)(\([^)]+\))?:\s+.+`

  const CommitTypes: seq<string> := ["feat", "fix", "docs", "style", "refactor", "test", "chore"]

  /** `\([^)]+\)` spanning `m[i..p]`. */
  predicate ScopeSpan(m: string, i: int, p: int) {
    0 <= i && i + 2 < p <= |m| && m[i] == '(' && Run(m, i + 1, p - 1, NotCloseParen) && m[p - 1] == ')'
  }

  /** `:\s+.+` from position `p`. */
  predicate SubjectFrom(m: string, p: int) {
    && 0 <= p < |m| && m[p] == ':'
    && exists k | p + 1 < k < |m| :: Run(m, p + 1, k, Space) && m[k] != '\n'
  }

  /** The header of type `t`: the type, an optional scope ending at `p`, then the subject. */
  predicate TypedHeader(m: string, t: string) {
    && StartsWith(m, t)
    && exists p | |t| <= p <= |m| :: (p == |t| || ScopeSpan(m, |t|, p)) && SubjectFrom(m, p)
  }

  predicate HeaderValid(m: string) {
    exists t | t in CommitTypes :: TypedHeader(m, t)
  }

  /** A header as it is written: type, optional scope, ": " and the subject. */
  function Header(t: string, scope: Option<string>, subject: string): string {
    t + (if scope.Some? then "(" + scope.value + ")" else "") + ": " + subject
  }

  // ---------------------------------------------------------------------
  // Pushes

  /** `^git\s+push\s+` */
  predicate PushCommand(c: string) {
    && StartsWith(c, "git")
    && exists j | 3 < j <= |c| :: Run(c, 3, j, Space) && StartsAt(c, j, "push") && j + 4 < |c| && IsSpace(c[j + 4])
  }

  const ProtectedBranches: seq<string> := ["main", "master", "production"]

  /** `(main|master|production)\b` anywhere: there is no boundary before the name. */
  predicate NamesProtectedBranch(c: string) {
    exists w, i | w in ProtectedBranches && 0 <= i <= |c| :: StartsAt(c, i, w) && Boundary(c, i + |w|)
  }

  /** `git\s+push\s+` at `i`, ending at `k`. */
  predicate PushWordsAt(c: string, i: int, k: int) {
    && StartsAt(c, i, "git")
    && exists j | i + 3 < j < k ::
         Run(c, i + 3, j, Space) && StartsAt(c, j, "push") && j + 4 < k && Run(c, j + 4, k, Space)
  }

  /** `git\s+push\s+.*--force(?!-with-lease)` anywhere. */
  predicate ForcePush(c: string) {
    exists i, k, f | 0 <= i < k <= f <= |c| ::
      && PushWordsAt(c, i, k) && Run(c, k, f, NotNewline)
      && StartsAt(c, f, "--force") && !StartsAt(c, f + 7, "-with-lease")
  }

  // ---------------------------------------------------------------------
  // The decision

  /** The commit rules: the reason a `git commit` is blocked, if it is. */
  function CommitRule(c: string): (r: Option<string>)
    ensures r.Some? ==> CommitCommand(c)
  {
    if !CommitCommand(c) then None
    else if HasProhibitedPhrase(c) then Some(AiReferenceReason)
    else if Contains(c, "-m") then
      match ExtractMessage(c)
      case Some(m) => if !HeaderValid(m) && |m| < 10 then Some(ShortMessageReason) else None
      case None => None
    else None
  }

  /** The push rules: the reason a push is blocked, if it is. */
  function PushRule(c: string): Option<string> {
    if PushCommand(c) && NamesProtectedBranch(c) then Some(ProtectedPushReason)
    else if ForcePush(c) then Some(ForcePushReason)
    else None
  }

  function CheckCommand(c: string): (d: Decision)
    ensures d.Approve? ==> d.note.None?
    ensures d.Block? <==> CommitRule(c).Some? || PushRule(c).Some?
  {
    match CommitRule(c)
    case Some(reason) => Block(reason)
    case None =>
      match PushRule(c)
      case Some(reason) => Block(reason)
      case None => Approve(None)
  }

  /** `main()`: only Bash commands are inspected. */
  function Decide(input: Input): (d: Decision)
    ensures d.Block? ==> input.Parsed? && input.event.Bash?
    ensures (d.Approve? && d.note.Some?) <==> input.Malformed?
  {
    match input
    case Malformed(error) => ParseFailure(error)
    case Parsed(Bash(c)) => CheckCommand(c)
    case Parsed(_) => Approve(None)
  }

  // ---------------------------------------------------------------------
  // Properties

  /** Any tool other than Bash is approved without a reason. */
  lemma NonBashApproved(e: Event)
    requires !e.Bash?
    ensures Decide(Parsed(e)) == Approve(None)
  {
  }

  /** A phrase occurrence survives putting text around it. */
  lemma {:induction false} PhraseAtShift(pre: string, s: string, post: string, i: int, words: seq<string>)
    requires PhraseAt(s, i, words)
    ensures PhraseAt(pre + s + post, |pre| + i, words)
    decreases |words|
  {
    var t := pre + s + post;
    if |words| > 0 {
      StartsAtShift(pre, s, post, i, words[0]);
      if |words| > 1 {
        var j :| i + |words[0]| < j <= |s| && Run(s, i + |words[0]|, j, Space) && PhraseAt(s, j, words[1..]);
        PhraseAtShift(pre, s, post, j, words[1..]);
        assert forall k | |pre| + i + |words[0]| <= k < |pre| + j :: t[k] == s[k - |pre|];
        assert Run(t, |pre| + i + |words[0]|, |pre| + j, Space);
      }
    }
  }

  /**
   * A prohibited phrase, written in any mix of upper and lower case, anywhere
   * in a commit command blocks it, whatever else the command holds: the
   * phrase check comes before the message format check.
   */
  lemma PhraseAnywhereBlocksCommit(pre: string, x: string, post: string, p: seq<string>)
    requires CommitCommand(pre + x + post)
    requires p in ProhibitedPhrases && PhraseAt(Lower(x), 0, p)
    ensures Decide(Parsed(Bash(pre + x + post))) == Block(AiReferenceReason)
  {
    LowerAppend(pre + x, post);
    LowerAppend(pre, x);
    PhraseAtShift(Lower(pre), Lower(x), Lower(post), 0, p);
    assert Lower(pre + x + post) == Lower(pre) + Lower(x) + Lower(post);
  }

  /** A word followed by blanks and a phrase forms the longer phrase. */
  lemma PhraseCons(w: string, gap: string, rest: string, words: seq<string>)
    requires |gap| > 0 && Run(gap, 0, |gap|, Space)
    requires |words| > 0 && PhraseAt(rest, 0, words)
    ensures PhraseAt(w + gap + rest, 0, [w] + words)
  {
    var t := w + gap + rest;
    StartsAtFront(w, gap + rest);
    assert t == w + (gap + rest);
    PhraseAtShift(w + gap, rest, "", 0, words);
    assert w + gap + rest + "" == t;
    assert forall k | |w| <= k < |w| + |gap| :: t[k] == gap[k - |w|];
    assert Run(t, |w|, |w| + |gap|, Space);
    assert ([w] + words)[1..] == words;
  }

  lemma SingleWordPhrase(w: string)
    ensures PhraseAt(w, 0, [w])
  {
    StartsAtFront(w, "");
    assert w + "" == w;
  }

  lemma LowerGeneratedByClaude()
    ensures Lower("Generated by Claude") == "generated by claude"
  {
    forall k | 0 <= k < 19
      ensures Lower("Generated by Claude")[k] == "generated by claude"[k]
    {
    }
  }

  /** A commit command is blocked for AI references exactly when a prohibited phrase occurs in it. */
  lemma AiRuleIff(c: string)
    requires CommitCommand(c)
    ensures CommitRule(c) == Some(AiReferenceReason) <==> HasProhibitedPhrase(c)
  {
    assert |AiReferenceReason| != |ShortMessageReason|;
  }

  /** Three words separated by single spaces form their phrase. */
  lemma ThreeWordPhrase(a: string, b: string, c: string)
    ensures PhraseAt(a + " " + b + " " + c, 0, [a, b, c])
  {
    assert Run(" ", 0, 1, Space);
    SingleWordPhrase(c);
    PhraseCons(b, " ", c, [c]);
    assert [b] + [c] == [b, c];
    PhraseCons(a, " ", b + " " + c, [b, c]);
    assert [a] + [b, c] == [a, b, c];
    assert a + " " + (b + " " + c) == a + " " + b + " " + c;
  }

  /** "Generated by Claude", as it is usually capitalised, is one of the phrases. */
  lemma GeneratedByClaudeProhibited()
    ensures ["generated", "by", "claude"] in ProhibitedPhrases
    ensures PhraseAt(Lower("Generated by Claude"), 0, ["generated", "by", "claude"])
  {
    LowerGeneratedByClaude();
    ThreeWordPhrase("generated", "by", "claude");
    assert "generated" + " " + "by" + " " + "claude" == "generated by claude";
  }

  // ---------------------------------------------------------------------
  // Message extraction

  /** The matcher at `i` finds exactly the pattern's match starting at `i`. */
  lemma MessageAtFindsMatch(c: string, i: nat)
    requires i <= |c| && MessageAt(c, i).Some?
    ensures exists j, k :: MatchAt(c, i, j, k) && MessageAt(c, i).value == c[j + 1..k]
  {
    var j := RunEnd(c, i + 2, Space);
    var k := RunEnd(c, j + 1, NotQuote);
    assert !InClass(c[k], NotQuote);
    assert MatchAt(c, i, j, k);
  }

  lemma MatchFoundByMessageAt(c: string, i: nat, j: int, k: int)
    requires MatchAt(c, i, j, k)
    ensures MessageAt(c, i) == Some(c[j + 1..k])
  {
    RunEndAt(c, i + 2, j, Space);
    RunEndAt(c, j + 1, k, NotQuote);
  }

  /** No match of the pattern starts before `i`. */
  ghost predicate NoMatchBefore(c: string, i: int) {
    forall q, j, k | 0 <= q < i :: !MatchAt(c, q, j, k)
  }

  lemma NoMessageNoMatch(c: string, q: nat)
    requires q <= |c| && MessageAt(c, q).None?
    ensures forall j, k :: !MatchAt(c, q, j, k)
  {
    forall j, k | MatchAt(c, q, j, k)
      ensures false
    {
      MatchFoundByMessageAt(c, q, j, k);
    }
  }

  /**
   * `r` is what a search from `i` should give: the message of the leftmost
   * match at or after `i`, or nothing when there is no such match.
   */
  ghost predicate LeftmostFrom(c: string, i: int, r: Option<string>) {
    && (r.Some? ==>
          exists p, j, k :: i <= p && MatchAt(c, p, j, k) && r.value == c[j + 1..k]
            && forall q, j', k' | i <= q < p :: !MatchAt(c, q, j', k'))
    && (r.None? ==> forall q, j, k | i <= q :: !MatchAt(c, q, j, k))
  }

  /** A match at `i` itself is the leftmost from `i`. */
  lemma LeftmostHere(c: string, i: nat)
    requires i <= |c| && MessageAt(c, i).Some?
    ensures LeftmostFrom(c, i, MessageAt(c, i))
  {
    MessageAtFindsMatch(c, i);
    var j, k :| MatchAt(c, i, j, k) && MessageAt(c, i).value == c[j + 1..k];
    assert forall q, j', k' | i <= q < i :: !MatchAt(c, q, j', k');
  }

  /** Without a match at `i`, the leftmost from `i` is the leftmost from `i + 1`. */
  lemma LeftmostPast(c: string, i: nat, r: Option<string>)
    requires i < |c| && MessageAt(c, i).None?
    requires LeftmostFrom(c, i + 1, r)
    ensures LeftmostFrom(c, i, r)
  {
    NoMessageNoMatch(c, i);
    if r.Some? {
      var p, j, k :| i + 1 <= p && MatchAt(c, p, j, k) && r.value == c[j + 1..k]
        && forall q, j', k' | i + 1 <= q < p :: !MatchAt(c, q, j', k');
      assert forall q, j', k' | i <= q < p :: !MatchAt(c, q, j', k');
    }
  }

  /** The search from `i` returns the message of the leftmost match at or after `i`. */
  lemma {:induction false} ExtractFromLeftmost(c: string, i: nat)
    requires i <= |c|
    ensures LeftmostFrom(c, i, ExtractFrom(c, i))
    decreases |c| - i
  {
    if MessageAt(c, i).Some? {
      LeftmostHere(c, i);
    } else if i < |c| {
      ExtractFromLeftmost(c, i + 1);
      LeftmostPast(c, i, ExtractFrom(c, i + 1));
    } else {
      NoMessageNoMatch(c, i);
      forall q, j, k | i <= q && MatchAt(c, q, j, k)
        ensures false
      {
      }
    }
  }

  /**
   * `re.search(r'-m\s+["\']([^"\']+)["\']', c)`: the extracted message is the
   * group of the leftmost match, and there is none exactly when nothing matches.
   */
  lemma ExtractMessageIsLeftmostMatch(c: string)
    ensures ExtractMessage(c).Some? ==>
              exists i, j, k :: MatchAt(c, i, j, k) && NoMatchBefore(c, i) && ExtractMessage(c).value == c[j + 1..k]
    ensures ExtractMessage(c).None? <==> forall i, j, k :: !MatchAt(c, i, j, k)
  {
    ExtractFromLeftmost(c, 0);
    if ExtractMessage(c).Some? {
      var p, j, k :| 0 <= p && MatchAt(c, p, j, k) && ExtractMessage(c).value == c[j + 1..k]
        && forall q, j', k' | 0 <= q < p :: !MatchAt(c, q, j', k');
      assert NoMatchBefore(c, p);
    }
  }

  /** Whenever a message is extracted the command contains `-m`, so that guard never decides alone. */
  lemma ExtractedMessageHasFlag(c: string)
    requires ExtractMessage(c).Some?
    ensures Contains(c, "-m")
  {
    ExtractMessageIsLeftmostMatch(c);
    var i, j, k :| MatchAt(c, i, j, k) && NoMatchBefore(c, i) && ExtractMessage(c).value == c[j + 1..k];
  }

  /**
   * For a commit command without AI references, the format rule blocks
   * exactly when a message is extracted that is off the header format and
   * shorter than 10 characters.
   */
  lemma FormatRuleIff(c: string)
    requires CommitCommand(c) && !HasProhibitedPhrase(c)
    ensures CommitRule(c).Some? <==>
              ExtractMessage(c).Some? && !HeaderValid(ExtractMessage(c).value) && |ExtractMessage(c).value| < 10
    ensures CommitRule(c).Some? ==> CommitRule(c) == Some(ShortMessageReason)
  {
    if ExtractMessage(c).Some? {
      ExtractedMessageHasFlag(c);
    }
  }

  // ---------------------------------------------------------------------
  // The header format

  /** A header written as type, optional non-empty scope, ": " and a subject is valid. */
  lemma HeaderRenderValid(t: string, scope: Option<string>, subject: string)
    requires t in CommitTypes
    requires scope.Some? ==> scope.value != "" && ')' !in scope.value
    requires subject != "" && subject[0] != '\n'
    ensures HeaderValid(Header(t, scope, subject))
  {
    var sc := if scope.Some? then "(" + scope.value + ")" else "";
    var m := Header(t, scope, subject);
    var p := |t| + |sc|;
    assert m == t + (sc + ": " + subject);
    StartsAtFront(t, sc + ": " + subject);
    if scope.Some? {
      var v := scope.value;
      assert forall x | |t| + 1 <= x < p - 1 :: m[x] == v[x - |t| - 1];
      assert forall x | |t| + 1 <= x < p - 1 :: m[x] in v;
      assert ScopeSpan(m, |t|, p);
    }
    assert m[p] == ':' && m[p + 1] == ' ' && m[p + 2] == subject[0];
    assert Run(m, p + 1, p + 2, Space);
    assert SubjectFrom(m, p);
    assert TypedHeader(m, t);
  }

  /** A valid header is at least 6 characters long (`fix: x`). */
  lemma HeaderValidLength(m: string)
    requires HeaderValid(m)
    ensures |m| >= 6
  {
    var t :| t in CommitTypes && TypedHeader(m, t);
    assert |t| >= 3 by {
      assert forall u <- CommitTypes :: |u| >= 3;
    }
    var p :| |t| <= p <= |m| && (p == |t| || ScopeSpan(m, |t|, p)) && SubjectFrom(m, p);
    var k :| p + 1 < k < |m| && Run(m, p + 1, k, Space) && m[k] != '\n';
  }

  /** `fix bug` is off the format and shorter than 10 characters, so it is blocked. */
  lemma FixBugRejected()
    ensures !HeaderValid("fix bug") && |"fix bug"| < 10
  {
    var m := "fix bug";
    forall t | t in CommitTypes
      ensures !TypedHeader(m, t)
    {
      if t == "fix" {
        assert m[3] == ' ';
        forall p | 3 <= p <= |m| && (p == 3 || ScopeSpan(m, 3, p))
          ensures !SubjectFrom(m, p)
        {
          assert p == 3;
        }
      } else {
        NotStartsAt(m, 0, t, if t == "feat" then 1 else 0);
      }
    }
  }

  /** The search passes over positions that hold no `-`. */
  lemma {:induction false} ExtractSkips(c: string, i: nat, n: nat)
    requires i <= n <= |c|
    requires forall q | i <= q < n :: c[q] != '-'
    ensures ExtractFrom(c, i) == ExtractFrom(c, n)
    decreases n - i
  {
    if i < n {
      NotStartsAt(c, i, "-m", 0);
      ExtractSkips(c, i + 1, n);
    }
  }

  /** A prohibited phrase found in a text has its first word in the text. */
  lemma PhraseNeedsFirstWord(s: string, i: int, p: seq<string>)
    requires |p| > 0 && PhraseAt(s, i, p)
    ensures Contains(s, p[0])
  {
    StartsAtContains(s, i, p[0]);
  }

  /** A lower-case text holding none of the phrases' first words holds no phrase. */
  lemma NoFirstWordNoPhrase(s: string)
    requires Lower(s) == s
    requires forall p <- ProhibitedPhrases :: !Contains(s, p[0])
    ensures !HasProhibitedPhrase(s)
  {
    forall p, i | p in ProhibitedPhrases && 0 <= i <= |s| && PhraseAt(s, i, p)
      ensures false
    {
      PhraseNeedsFirstWord(s, i, p);
    }
  }

  lemma FixBugIsCommit()
    ensures CommitCommand("git commit -m \"fix bug\"")
  {
    var c := "git commit -m \"fix bug\"";
    assert c[0..3] == "git" && c[4..10] == "commit" && c[3] == ' ';
    assert StartsAt(c, 0, "git") && StartsAt(c, 4, "commit");
    assert Run(c, 3, 4, Space);
    assert IsWordChar(c[0]) && IsWordChar(c[9]) && !IsWordChar(c[10]);
    assert Boundary(c, 0) && Boundary(c, 10);
    assert CommitAt(c, 0, 4);
  }

  /** A word with one of the letters `l`, `w`, `e`, `a` or the robot emoji does not occur in the command. */
  lemma FixBugLacks(w: string, k: nat)
    requires k < |w|
    requires w[k] == 'l' || w[k] == 'w' || w[k] == 'e' || w[k] == 'a' || w[k] == '\U{1F916}'
    ensures !Contains("git commit -m \"fix bug\"", w)
  {
    var c := "git commit -m \"fix bug\"";
    assert forall x | 0 <= x < |c| :: c[x] != 'l' && c[x] != 'w' && c[x] != 'e' && c[x] != 'a' && c[x] != '\U{1F916}';
    assert w[k] !in c;
    NotContains(c, w, k);
  }

  lemma FixBugHasNoPhrase()
    ensures !HasProhibitedPhrase("git commit -m \"fix bug\"")
  {
    var c := "git commit -m \"fix bug\"";
    assert forall ch <- c :: !('A' <= ch <= 'Z');
    LowerFixes(c);
    FixBugLacks("claude", 1);
    FixBugLacks("written", 0);
    FixBugLacks("generated", 1);
    FixBugLacks("anthropic", 0);
    FixBugLacks("\U{1F916}", 0);
    NoFirstWordNoPhrase(c);
  }

  /** The pattern matches at the `-m`, with the message `fix bug`. */
  lemma FixBugMatch()
    ensures MessageAt("git commit -m \"fix bug\"", 11) == Some("fix bug")
  {
    var c := "git commit -m \"fix bug\"";
    assert c[11..13] == "-m" && c[13] == ' ' && c[14] == '"' && c[22] == '"';
    assert c[15..22] == "fix bug";
    assert forall x | 15 <= x < 22 :: c[x] == "fix bug"[x - 15];
    assert MatchAt(c, 11, 14, 22);
    MatchFoundByMessageAt(c, 11, 14, 22);
  }

  /** No `-` comes before the flag. */
  lemma FixBugNoDashBefore()
    ensures forall q | 0 <= q < 11 :: "git commit -m \"fix bug\""[q] != '-'
  {
    var c := "git commit -m \"fix bug\"";
    assert c[..11] == "git commit ";
    assert forall q | 0 <= q < 11 :: c[q] == c[..11][q];
  }

  lemma FixBugMessage()
    ensures ExtractMessage("git commit -m \"fix bug\"") == Some("fix bug")
    ensures Contains("git commit -m \"fix bug\"", "-m")
  {
    var c := "git commit -m \"fix bug\"";
    FixBugMatch();
    FixBugNoDashBefore();
    ExtractSkips(c, 0, 11);
    assert StartsAt(c, 11, "-m");
    StartsAtContains(c, 11, "-m");
  }

  /** `git commit -m "fix bug"` is blocked for its message. */
  lemma FixBugCommitBlocked()
    ensures Decide(Parsed(Bash("git commit -m \"fix bug\""))) == Block(ShortMessageReason)
  {
    FixBugIsCommit();
    FixBugHasNoPhrase();
    FixBugMessage();
    FixBugRejected();
  }

  /** `fix(auth): resolve token expiry bug`, a header of type `fix` with scope `auth`, follows the format. */
  lemma FixAuthAccepted()
    ensures HeaderValid(Header("fix", Some("auth"), "resolve token expiry bug"))
  {
    HeaderRenderValid("fix", Some("auth"), "resolve token expiry bug");
  }

  // ---------------------------------------------------------------------
  // Pushes

  /** A commit command contains the word `commit`. */
  lemma CommitNeedsWord(c: string)
    ensures CommitCommand(c) ==> Contains(c, "commit")
  {
    if CommitCommand(c) {
      var i, j :| CommitAt(c, i, j);
      StartsAtContains(c, j, "commit");
    }
  }

  /** A push that names a protected branch, in a command no commit rule blocks, is blocked for it. */
  lemma ProtectedPushBlocked(c: string)
    requires CommitRule(c).None? && PushCommand(c) && NamesProtectedBranch(c)
    ensures Decide(Parsed(Bash(c))) == Block(ProtectedPushReason)
  {
  }

  /** `git push origin <anything>` is a push command. */
  lemma OriginPushCommand(tail: string)
    ensures PushCommand("git push origin " + tail)
  {
    var head := "git push origin ";
    var c := head + tail;
    assert StartsWith(head, "git") && StartsAt(head, 4, "push");
    StartsAtShift([], head, tail, 0, "git");
    StartsAtShift([], head, tail, 4, "push");
    assert [] + head + tail == c;
    assert c[3] == head[3] && c[8] == head[8];
    assert Run(c, 3, 4, Space) && IsSpace(c[8]);
  }

  /** A command ending in `main` names a protected branch. */
  lemma EndsInMainNamed(pre: string)
    ensures NamesProtectedBranch(pre + "main")
  {
    var c := pre + "main";
    StartsAtFront("main", "");
    StartsAtShift(pre, "main", "", 0, "main");
    assert pre + "main" + "" == c;
    assert c[|c| - 1] == 'n';
    assert "main" in ProtectedBranches;
    assert StartsAt(c, |c| - 4, "main") && Boundary(c, |c|);
  }

  /**
   * The branch name needs no boundary in front: pushing to a remote branch
   * whose name merely ends in `main`, such as `domain`, is blocked as if it
   * were `main`.
   */
  lemma OriginDomainBlocked(w: string)
    requires 'c' !in w
    ensures Decide(Parsed(Bash("git push origin " + w + "main"))) == Block(ProtectedPushReason)
  {
    var head, tail := "git push origin ", w + "main";
    var c := head + tail;
    assert c == "git push origin " + w + "main" == head + w + "main";
    assert !Contains(c, "commit") by {
      assert 'c' !in head && 'c' !in "main";
      NotInConcat(w, "main", 'c');
      NotInConcat(head, tail, 'c');
      NotContains(c, "commit", 0);
    }
    CommitNeedsWord(c);
    OriginPushCommand(tail);
    EndsInMainNamed(head + w);
    ProtectedPushBlocked(c);
  }

  /** `git push ` opens every command that starts with it. */
  lemma GitPushPrefix(r: string)
    ensures PushWordsAt("git push " + r, 0, 9)
  {
    var pre := "git push ";
    var c := pre + r;
    StartsAtFront(pre, r);
    assert forall n | 0 <= n < 9 :: c[n] == pre[n];
    assert StartsAt(c, 0, "git") && StartsAt(c, 4, "push");
    assert Run(c, 3, 4, Space) && Run(c, 8, 9, Space);
  }

  /** `git push <anything on the line> --force` with no `-with-lease` after the flag is a force push. */
  lemma ForceFlagDetected(x: string, y: string)
    requires '\n' !in x && !StartsWith(y, "-with-lease")
    ensures ForcePush("git push " + x + "--force" + y)
  {
    var pre := "git push ";
    var c := pre + x + "--force" + y;
    var f := 9 + |x|;
    assert PushWordsAt(c, 0, 9) by {
      assert c == pre + (x + "--force" + y);
      GitPushPrefix(x + "--force" + y);
    }
    assert Run(c, 9, f, NotNewline) by {
      assert forall n | 9 <= n < f :: c[n] == x[n - 9];
      assert forall n | 9 <= n < f :: c[n] in x;
    }
    assert StartsAt(c, f, "--force") && !StartsAt(c, f + 7, "-with-lease") by {
      assert c == (pre + x) + ("--force" + y);
      StartsAtAfter(pre + x, "--force" + y, "--force");
      StartsAtFront("--force", y);
      StartsAtAfter(pre + x + "--force", y, "-with-lease");
    }
  }

  /** A push whose every `--force` is `--force-with-lease` is not a force push. */
  lemma LeaseOnlyNotForcePush(c: string)
    requires forall f | 0 <= f <= |c| && StartsAt(c, f, "--force") :: StartsAt(c, f + 7, "-with-lease")
    ensures !ForcePush(c)
  {
  }

  /**
   * Once the commit rules pass a command, the push rules decide it in their
   * order: a push naming a protected branch is refused for that; otherwise
   * a force push is refused for forcing; otherwise it is approved.
   */
  lemma PushDecisionIff(c: string)
    requires CommitRule(c).None?
    ensures Decide(Parsed(Bash(c))) == Block(ProtectedPushReason) <==> PushCommand(c) && NamesProtectedBranch(c)
    ensures !(PushCommand(c) && NamesProtectedBranch(c)) ==>
              (Decide(Parsed(Bash(c))) == Block(ForcePushReason) <==> ForcePush(c))
    ensures Decide(Parsed(Bash(c))) == Approve(None) <==>
              !(PushCommand(c) && NamesProtectedBranch(c)) && !ForcePush(c)
  {
    assert |ProtectedPushReason| != |ForcePushReason|;
  }

  /** `git push … --force` is refused for forcing when no earlier rule applies. */
  lemma ForcePushBlocked(x: string, y: string)
    requires '\n' !in x && !StartsWith(y, "-with-lease")
    requires CommitRule("git push " + x + "--force" + y).None?
    requires !NamesProtectedBranch("git push " + x + "--force" + y)
    ensures Decide(Parsed(Bash("git push " + x + "--force" + y))) == Block(ForcePushReason)
  {
    ForceFlagDetected(x, y);
    PushDecisionIff("git push " + x + "--force" + y);
  }

  /** A push using only `--force-with-lease`, to a branch that is not protected, is approved. */
  lemma LeasePushApproved(c: string)
    requires CommitRule(c).None? && !NamesProtectedBranch(c)
    requires forall f | 0 <= f <= |c| && StartsAt(c, f, "--force") :: StartsAt(c, f + 7, "-with-lease")
    ensures Decide(Parsed(Bash(c))) == Approve(None)
  {
    LeaseOnlyNotForcePush(c);
    PushDecisionIff(c);
  }

  /** Exit status 1 exactly when some rule blocks the command. */
  lemma ExitStatusIff(c: string)
    ensures ExitStatus(Decide(Parsed(Bash(c)))) == 1 <==> CommitRule(c).Some? || PushRule(c).Some?
  {
  }
}
