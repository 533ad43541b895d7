/**
 * Character classes and string operations that the hooks' regular
 * expressions and `str` methods are built from. Each regular expression of
 * the hooks is written out by hand (in the hook's own module) as an
 * existence claim over positions, using the helpers defined here.
 */
module Strings {

  /** Python's `str.isspace()`, which is what `\s` matches in a `str` pattern. */
  predicate IsSpace(c: char) {
    || c == ' '
    || '\t' <= c <= '\r'
    || '\U{1C}' <= c <= '\U{1F}'
    || c == '\U{85}' || c == '\U{A0}' || c == '\U{1680}'
    || '\U{2000}' <= c <= '\U{200A}'
    || c == '\U{2028}' || c == '\U{2029}' || c == '\U{202F}'
    || c == '\U{205F}' || c == '\U{3000}'
  }

  /** `\w`, restricted to ASCII: a letter, a digit or an underscore. */
  predicate IsWordChar(c: char) {
    'a' <= c <= 'z' || 'A' <= c <= 'Z' || '0' <= c <= '9' || c == '_'
  }

  /** `\d`, restricted to ASCII. */
  predicate IsDigit(c: char) {
    '0' <= c <= '9'
  }

  /** A line boundary for `str.splitlines()`. */
  predicate IsLineBreak(c: char) {
    || c == '\n' || c == '\r' || c == '\U{0B}' || c == '\U{0C}'
    || '\U{1C}' <= c <= '\U{1E}'
    || c == '\U{85}' || c == '\U{2028}' || c == '\U{2029}'
  }

  /** The character classes that occur in the hooks' patterns and line splitting. */
  datatype CharClass =
    | Space          // \s
    | NonSpace       // \S
    | Word           // \w
    | NotNewline     // .  (no DOTALL flag)
    | NotQuote       // [^"']
    | NotDoubleQuote // [^"]
    | NotCloseParen  // [^)]
    | DigitOrDot     // [\d\.]
    | NotLineBreak   // not a `str.splitlines()` boundary
    | NotFileBreak   // not a line end when a file is read as text: "\n" or "\r"

  predicate InClass(c: char, cls: CharClass) {
    match cls
    case Space => IsSpace(c)
    case NonSpace => !IsSpace(c)
    case Word => IsWordChar(c)
    case NotNewline => c != '\n'
    case NotQuote => c != '"' && c != '\''
    case NotDoubleQuote => c != '"'
    case NotCloseParen => c != ')'
    case DigitOrDot => IsDigit(c) || c == '.'
    case NotLineBreak => !IsLineBreak(c)
    case NotFileBreak => c != '\n' && c != '\r'
  }

  /** Every character of `s[i..j]` belongs to `cls` (a possibly empty run). */
  predicate Run(s: string, i: int, j: int, cls: CharClass) {
    0 <= i <= j <= |s| && forall k | i <= k < j :: InClass(s[k], cls)
  }

  /** The end of the longest run of `cls` that starts at `i`. */
  function RunEnd(s: string, i: nat, cls: CharClass): (j: nat)
    requires i <= |s|
    ensures i <= j <= |s| && Run(s, i, j, cls)
    ensures j < |s| ==> !InClass(s[j], cls)
    decreases |s| - i
  {
    if i == |s| || !InClass(s[i], cls) then i else RunEnd(s, i + 1, cls)
  }

  /** A run that cannot be extended is the longest one. */
  lemma {:induction false} RunEndAt(s: string, i: nat, j: nat, cls: CharClass)
    requires Run(s, i, j, cls) && (j == |s| || !InClass(s[j], cls))
    ensures RunEnd(s, i, cls) == j
    decreases j - i
  {
    if i < j {
      assert InClass(s[i], cls);
      RunEndAt(s, i + 1, j, cls);
    }
  }

  /** The longest run of `cls` at the start of `run`, in context. */
  lemma RunEndOfConcat(pre: string, run: string, post: string, cls: CharClass)
    requires Run(run, 0, |run|, cls)
    requires post == "" || !InClass(post[0], cls)
    ensures RunEnd(pre + run + post, |pre|, cls) == |pre| + |run|
  {
    var s := pre + run + post;
    assert forall k | |pre| <= k < |pre| + |run| :: s[k] == run[k - |pre|];
    assert |pre| + |run| < |s| ==> s[|pre| + |run|] == post[0];
    RunEndAt(s, |pre|, |pre| + |run|, cls);
  }

  /** The literal `lit` occurs in `s` at position `i`. */
  predicate StartsAt(s: string, i: int, lit: string) {
    0 <= i && i + |lit| <= |s| && s[i..i + |lit|] == lit
  }

  /** `s.startswith(lit)`. */
  predicate StartsWith(s: string, lit: string) {
    StartsAt(s, 0, lit)
  }

  /** `s.endswith(lit)`. */
  predicate EndsWith(s: string, lit: string) {
    |lit| <= |s| && s[|s| - |lit|..] == lit
  }

  /** `lit in s`. */
  predicate Contains(s: string, lit: string) {
    exists i | 0 <= i <= |s| - |lit| :: StartsAt(s, i, lit)
  }

  /** `\b` at position `i`: exactly one of the neighbouring characters is a word character. */
  predicate Boundary(s: string, i: int) {
    (0 < i <= |s| && IsWordChar(s[i - 1])) != (0 <= i < |s| && IsWordChar(s[i]))
  }

  /** A text holding a literal holds every piece of it. */
  lemma ContainsSlice(s: string, lit: string, a: nat, b: nat)
    requires Contains(s, lit) && a <= b <= |lit|
    ensures Contains(s, lit[a..b])
  {
    var i :| 0 <= i <= |s| - |lit| && StartsAt(s, i, lit);
    forall x | a <= x < b
      ensures s[i + x] == lit[x]
    {
      StartsAtChar(s, i, lit, x);
    }
    assert s[i + a..i + b] == lit[a..b];
    assert StartsAt(s, i + a, lit[a..b]);
  }

  /** An occurrence at a position is an occurrence. */
  lemma StartsAtContains(s: string, i: int, lit: string)
    ensures StartsAt(s, i, lit) ==> Contains(s, lit)
  {
  }

  /** A literal in either half of a text is in the text. */
  lemma ContainsInConcat(a: string, b: string, lit: string)
    ensures Contains(a, lit) || Contains(b, lit) ==> Contains(a + b, lit)
  {
    if Contains(a, lit) {
      var i :| 0 <= i <= |a| - |lit| && StartsAt(a, i, lit);
      StartsAtShift([], a, b, i, lit);
      assert [] + a + b == a + b;
    } else if Contains(b, lit) {
      var i :| 0 <= i <= |b| - |lit| && StartsAt(b, i, lit);
      StartsAtShift(a, b, [], i, lit);
      assert a + b + [] == a + b;
    }
  }

  /** A character in neither half of a text is not in the text. */
  lemma NotInConcat(a: string, b: string, c: char)
    requires c !in a && c !in b
    ensures c !in a + b
  {
    assert forall x <- a + b :: x in a || x in b;
  }

  /** A literal found in a tail of a text is found in the text. */
  lemma ContainsInTail(s: string, k: nat, lit: string)
    requires k <= |s| && Contains(s[k..], lit)
    ensures Contains(s, lit)
  {
    var t := s[k..];
    var i :| 0 <= i <= |t| - |lit| && StartsAt(t, i, lit);
    assert s[k + i..k + i + |lit|] == t[i..i + |lit|];
    assert StartsAt(s, k + i, lit);
  }

  /** A literal occurrence is preserved by putting text around it. */
  lemma StartsAtShift(pre: string, s: string, post: string, i: int, lit: string)
    requires StartsAt(s, i, lit)
    ensures StartsAt(pre + s + post, |pre| + i, lit)
  {
    assert (pre + s + post)[|pre| + i..|pre| + i + |lit|] == s[i..i + |lit|];
  }

  /** The literal at the front of a concatenation. */
  lemma StartsAtFront(lit: string, post: string)
    ensures StartsWith(lit + post, lit)
  {
    assert (lit + post)[..|lit|] == lit;
  }

  /** A literal occurring at `i` fixes the character there. */
  lemma StartsAtChar(s: string, i: int, lit: string, k: int)
    requires StartsAt(s, i, lit) && 0 <= k < |lit|
    ensures s[i + k] == lit[k]
  {
    assert s[i..i + |lit|][k] == s[i + k];
  }

  /** A literal whose first character is not `s[i]` does not occur at `i`. */
  lemma NotStartsAt(s: string, i: int, lit: string, k: int)
    requires 0 <= k < |lit| && 0 <= i && i + k < |s| && s[i + k] != lit[k]
    ensures !StartsAt(s, i, lit)
  {
    if StartsAt(s, i, lit) {
      StartsAtChar(s, i, lit, k);
    }
  }

  /** A literal one of whose characters is missing from `s` does not occur in it. */
  lemma NotContains(s: string, lit: string, k: int)
    requires 0 <= k < |lit| && lit[k] !in s
    ensures !Contains(s, lit)
  {
    forall i | 0 <= i <= |s| - |lit| && StartsAt(s, i, lit)
      ensures false
    {
      StartsAtChar(s, i, lit, k);
    }
  }

  /** A literal right after a prefix occurs there exactly when the rest starts with it. */
  lemma StartsAtAfter(pre: string, rest: string, lit: string)
    ensures StartsAt(pre + rest, |pre|, lit) <==> StartsWith(rest, lit)
  {
    if |lit| <= |rest| {
      assert (pre + rest)[|pre|..|pre| + |lit|] == rest[..|lit|];
    }
  }

  // ---------------------------------------------------------------------
  // Case folding

  function LowerChar(c: char): char {
    if 'A' <= c <= 'Z' then (c as int + 32) as char else c
  }

  /** `s.lower()`, restricted to ASCII letters. */
  function Lower(s: string): (r: string)
    ensures |r| == |s|
    ensures forall k | 0 <= k < |s| :: r[k] == LowerChar(s[k])
  {
    seq(|s|, k requires 0 <= k < |s| => LowerChar(s[k]))
  }

  lemma LowerAppend(a: string, b: string)
    ensures Lower(a + b) == Lower(a) + Lower(b)
  {
    assert forall k | 0 <= k < |a + b| :: Lower(a + b)[k] == (Lower(a) + Lower(b))[k];
  }

  /** Lower-casing keeps every character that is not an upper-case ASCII letter. */
  lemma LowerFixes(s: string)
    requires forall c <- s :: !('A' <= c <= 'Z')
    ensures Lower(s) == s
  {
    forall k | 0 <= k < |s|
      ensures Lower(s)[k] == s[k]
    {
      assert s[k] in s;
    }
  }

  // ---------------------------------------------------------------------
  // Splitting and joining

  /** The position of the first `c` in `s`, or `|s|` when there is none. */
  function IndexOf(s: string, c: char): (i: nat)
    ensures i <= |s| && (i < |s| ==> s[i] == c)
    ensures forall k | 0 <= k < i :: s[k] != c
  {
    if s == [] || s[0] == c then 0 else 1 + IndexOf(s[1..], c)
  }

  lemma {:induction false} IndexOfAbsent(s: string, c: char)
    requires c !in s
    ensures IndexOf(s, c) == |s|
  {
    if s != [] {
      assert s[0] in s && c !in s[1..];
      IndexOfAbsent(s[1..], c);
    }
  }

  lemma {:induction false} IndexOfFirst(a: string, c: char, b: string)
    requires c !in a
    ensures IndexOf(a + [c] + b, c) == |a|
  {
    if a != [] {
      assert a[0] in a && c !in a[1..];
      assert (a + [c] + b)[1..] == a[1..] + [c] + b;
      IndexOfFirst(a[1..], c, b);
    }
  }

  /** `sep.join(parts)`. */
  function JoinWith(parts: seq<string>, sep: string): string {
    if |parts| == 0 then ""
    else if |parts| == 1 then parts[0]
    else parts[0] + sep + JoinWith(parts[1..], sep)
  }

  /** Joining one more part adds the separator and the part at the end. */
  lemma {:induction false} JoinWithSnoc(parts: seq<string>, x: string, sep: string)
    requires parts != []
    ensures JoinWith(parts + [x], sep) == JoinWith(parts, sep) + sep + x
  {
    if |parts| > 1 {
      assert (parts + [x])[1..] == parts[1..] + [x];
      JoinWithSnoc(parts[1..], x, sep);
    } else {
      assert (parts + [x])[1..] == [x];
    }
  }

  /** `s.split(sep)` for a one-character separator. */
  function Split(s: string, sep: char): (r: seq<string>)
    ensures |r| > 0
    ensures forall piece <- r :: sep !in piece
    decreases |s|
  {
    var i := IndexOf(s, sep);
    if i == |s| then [s] else [s[..i]] + Split(s[i + 1..], sep)
  }

  /** Joining a part in front of others adds the part and the separator at the front. */
  lemma JoinWithCons(x: string, parts: seq<string>, sep: string)
    requires parts != []
    ensures JoinWith([x] + parts, sep) == x + sep + JoinWith(parts, sep)
  {
    assert ([x] + parts)[1..] == parts;
  }

  /** Joining the pieces of a split with the separator gives the string back. */
  lemma {:induction false} JoinSplit(s: string, sep: char)
    ensures JoinWith(Split(s, sep), [sep]) == s
    decreases |s|
  {
    var i := IndexOf(s, sep);
    if i < |s| {
      var rest := s[i + 1..];
      JoinSplit(rest, sep);
      assert Split(s, sep) == [s[..i]] + Split(rest, sep);
      JoinWithCons(s[..i], Split(rest, sep), [sep]);
      assert s == s[..i] + [sep] + rest;
    } else {
      assert Split(s, sep) == [s];
    }
  }

  /** Splitting pieces joined by a separator they do not contain gives them back. */
  lemma {:induction false} SplitJoin(parts: seq<string>, sep: char)
    requires |parts| > 0
    requires forall p <- parts :: sep !in p
    ensures Split(JoinWith(parts, [sep]), sep) == parts
  {
    var p0 := parts[0];
    if |parts| == 1 {
      IndexOfAbsent(p0, sep);
    } else {
      var rest := JoinWith(parts[1..], [sep]);
      var s := p0 + [sep] + rest;
      assert s[|p0|] == sep;
      IndexOfFirst(p0, sep, rest);
      assert s[..|p0|] == p0;
      assert s[|p0| + 1..] == rest;
      SplitJoin(parts[1..], sep);
    }
  }

  // ---------------------------------------------------------------------
  // Decimal rendering, as f-strings render an int

  function DigitChar(d: nat): char
    requires d < 10
  {
    "0123456789"[d]
  }

  function NatToString(n: nat): (r: string)
    ensures |r| > 0
    ensures forall c <- r :: IsDigit(c)
  {
    if n < 10 then [DigitChar(n)] else NatToString(n / 10) + [DigitChar(n % 10)]
  }

  function IntToString(i: int): string {
    if i < 0 then "-" + NatToString(-i) else NatToString(i)
  }
}
