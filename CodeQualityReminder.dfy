/**
 * The quality-check reminder (hooks/code_quality_reminder_hook.py). It keeps
 * a session record of the Python files written or edited, persisted between
 * runs with a timestamp, and from the third distinct file on approves with a
 * reminder to lint, type-check and test the project. It never blocks.
 */
module CodeQualityReminder {
  import opened Hooks
  import opened Strings
  import opened Paths

  /** Seconds in a day and the length of a session, in seconds. */
  const SecondsPerDay := 86400
  const SessionSeconds := 3600
  const ReminderThreshold := 3
  const ListedFiles := 5
  const MaxLevels := 10

  // ---------------------------------------------------------------------
  // The persisted record

  /** The stored JSON object: its "files" list (empty when absent) and its timestamp, in seconds, when present. */
  datatype Record = Record(files: seq<string>, timestamp: Option<int>)

  function Elements(l: seq<string>): set<string> {
    set x | x in l
  }

  predicate Distinct(l: seq<string>) {
    forall i, j | 0 <= i < j < |l| :: l[i] != l[j]
  }

  /**
   * `(datetime.now() - ts).seconds < 3600`. A timedelta keeps whole days apart,
   * so `.seconds` is the elapsed time modulo one day, never negative.
   */
  predicate Fresh(ts: int, now: int) {
    (now - ts) % SecondsPerDay < SessionSeconds
  }

  /**
   * `load_modified_files()` applied to what the record file holds: `None` when
   * the file is missing or cannot be read or decoded.
   */
  function LoadRecord(stored: Option<Record>, now: int): (files: set<string>)
    ensures files != {} ==> stored.Some? && stored.value.timestamp.Some? && Fresh(stored.value.timestamp.value, now)
    ensures files <= (if stored.Some? then Elements(stored.value.files) else {})
  {
    if stored.Some? && stored.value.timestamp.Some? && Fresh(stored.value.timestamp.value, now) then
      Elements(stored.value.files)
    else {}
  }

  /** The record written for `files` at `now`: each file once, in some order, stamped `now`. */
  predicate Stores(stored: Option<Record>, files: set<string>, now: int) {
    && stored.Some? && stored.value.timestamp == Some(now)
    && Elements(stored.value.files) == files && Distinct(stored.value.files)
  }

  /** `list(files)`: the elements of a set, each once, in an order the model leaves open. */
  method ListOf(files: set<string>) returns (l: seq<string>)
    ensures Elements(l) == files && Distinct(l) && |l| == |files|
  {
    l := [];
    var rest := files;
    while rest != {}
      invariant Elements(l) + rest == files && Elements(l) !! rest
      invariant Distinct(l) && |l| + |rest| == |files|
      decreases |rest|
    {
      var x :| x in rest;
      assert x !in Elements(l);
      assert Elements(l + [x]) == Elements(l) + {x};
      l := l + [x];
      rest := rest - {x};
    }
  }

  /** The record file of a session, as the object it is read into and written from. */
  class SessionStore {
    var stored: Option<Record>

    constructor (initial: Option<Record>)
      ensures stored == initial
    {
      stored := initial;
    }

    /** `load_modified_files()` at time `now`. */
    function Load(now: int): set<string>
      reads this
    {
      LoadRecord(stored, now)
    }

    /**
     * `save_modified_files(files)` at time `now`; `written` says whether the
     * file could be written, and a failure leaves the record as it was.
     */
    method Save(files: set<string>, now: int, written: bool)
      modifies this
      ensures written ==> Stores(stored, files, now)
      ensures !written ==> stored == old(stored)
    {
      if written {
        var l := ListOf(files);
        stored := Some(Record(l, Some(now)));
      }
    }

    /** Lines 88-90 of `main()`: load, add the path, save; returns the set saved. */
    method Track(path: string, now: int, written: bool) returns (files: set<string>)
      modifies this
      ensures files == old(Load(now)) + {path}
      ensures written ==> Stores(stored, files, now)
      ensures !written ==> stored == old(stored)
    {
      files := Load(now);
      files := files + {path};
      Save(files, now, written);
    }

    /**
     * `main()`. `now` is the clock in seconds, `written` whether the record
     * file can be written, and `existing` the paths that exist on disk.
     */
    method Handle(input: Input, now: int, written: bool, existing: set<Path>) returns (d: Decision)
      modifies this
      ensures d.Approve?
      ensures !Tracked(input) ==> stored == old(stored) && d == Untracked(input)
      ensures Tracked(input) ==>
                var files := old(Load(now)) + {input.event.filePath};
                && (written ==> Stores(stored, files, now))
                && (!written ==> stored == old(stored))
                && (|files| < ReminderThreshold ==> d.note.None?)
                && (|files| >= ReminderThreshold ==>
                      exists l :: Elements(l) == files && Distinct(l) && |l| == |files|
                        && d.note == Some(Reminder(l, ProjectRootOf(input.event.filePath, existing))))
    {
      if !Tracked(input) {
        return Untracked(input);
      }
      var path := input.event.filePath;
      var files := Track(path, now, written);
      if |files| < ReminderThreshold {
        return Approve(None);
      }
      var root := ProjectRoot(path, existing);
      var l := ListOf(files);
      d := Approve(Some(Reminder(l, root)));
      assert Elements(l) == files && Distinct(l) && |l| == |files| && d.note == Some(Reminder(l, root));
    }
  }

  // ---------------------------------------------------------------------
  // Which events are tracked

  /** A Write, Edit or MultiEdit of a `.py` path. */
  predicate Tracked(input: Input) {
    input.Parsed? && ChangesFile(input.event) && EndsWith(input.event.filePath, ".py")
  }

  /** The answer to an event that is not tracked. */
  function Untracked(input: Input): (d: Decision)
    ensures d.Approve? && (d.note.Some? <==> input.Malformed?)
  {
    if input.Malformed? then ParseFailure(input.error) else Approve(None)
  }

  // ---------------------------------------------------------------------
  // The project root

  /** `(p / "pyproject.toml").exists() or (p / ".git").exists()` */
  predicate HasMarker(p: Path, existing: set<Path>) {
    Join(p, "pyproject.toml") in existing || Join(p, ".git") in existing
  }

  /** The `k`-th parent of `p`; past the anchor it stays there. */
  function Ancestor(p: Path, k: nat): Path
    decreases k
  {
    if k == 0 then p else Ancestor(Parent(p), k - 1)
  }

  /** The first of at most `levels` directories upward from `p` that holds a marker. */
  function FindRoot(p: Path, levels: nat, existing: set<Path>): Option<Path>
    decreases levels
  {
    if levels == 0 then None
    else if HasMarker(p, existing) then Some(p)
    else if Parent(p) == p then None
    else FindRoot(Parent(p), levels - 1, existing)
  }

  /** `get_project_root(file_path)` as a function of the path strings. */
  function ProjectRootOf(filePath: string, existing: set<Path>): string {
    var start := Parent(Parse(filePath));
    match FindRoot(start, MaxLevels, existing)
    case Some(q) => Render(q)
    case None => Render(start)
  }

  /** `get_project_root(file_path)`: walk up at most 10 levels, stopping at the anchor. */
  method ProjectRoot(filePath: string, existing: set<Path>) returns (root: string)
    ensures root == ProjectRootOf(filePath, existing)
  {
    var path := Parent(Parse(filePath));
    var i := 0;
    while i < MaxLevels
      invariant 0 <= i <= MaxLevels
      invariant FindRoot(Parent(Parse(filePath)), MaxLevels, existing) == FindRoot(path, MaxLevels - i, existing)
    {
      if HasMarker(path, existing) {
        return Render(path);
      }
      if Parent(path) == path {
        break;
      }
      path := Parent(path);
      i := i + 1;
    }
    return Render(Parent(Parse(filePath)));
  }

  // ---------------------------------------------------------------------
  // The reminder

  /** `"\n".join(f"  - {basename(f)}" for f in names[:5])`, plus the count of the rest. */
  function FilesList(names: seq<string>): string {
    var shown := if |names| <= ListedFiles then names else names[..ListedFiles];
    var list := JoinWith(BasenameBullets(shown), "\n");
    if |names| > ListedFiles then list + MoreLine(|names| - ListedFiles) else list
  }

  function BasenameBullets(names: seq<string>): (r: seq<string>)
    ensures |r| == |names|
    ensures forall k | 0 <= k < |names| :: r[k] == "  - " + Basename(names[k])
  {
    if names == [] then [] else ["  - " + Basename(names[0])] + BasenameBullets(names[1..])
  }

  function MoreLine(rest: int): string {
    "\n" + MoreText(rest)
  }

  function Reminder(names: seq<string>, root: string): string {
    "\U{1F4CB} QUALITY CHECK REMINDER - " + IntToString(|names|) + " Python files modified!\n\n"
    + "Modified files:\n" + FilesList(names) + "\n\n"
    + "Per CLAUDE.md, run these checks before finishing:\n\n"
    + "1. LINTING & FORMATTING:\n"
    + "   uv run ruff check " + root + " --fix\n"
    + "   uv run ruff format " + root + "\n\n"
    + "2. TYPE CHECKING:\n"
    + "   uv run mypy " + root + "\n\n"
    + "3. RUN TESTS:\n"
    + "   uv run pytest\n"
    + "   uv run pytest --cov=src --cov-report=html\n\n"
    + "4. CHECK LINE LIMITS:\n"
    + "   - Files < 500 lines\n"
    + "   - Functions < 50 lines\n"
    + "   - Classes < 100 lines\n\n"
    + "Complete ALL checks before marking task as done!"
  }

  // ---------------------------------------------------------------------
  // Properties of the record

  /** A record saved at `t` loads back as the same set within the hour. */
  lemma SavedLoadsBack(stored: Option<Record>, files: set<string>, t: int, now: int)
    requires Stores(stored, files, t) && 0 <= now - t < SessionSeconds
    ensures LoadRecord(stored, now) == files
  {
  }

  /** An hour or more later, the same day, the record is forgotten. */
  lemma SavedExpires(stored: Option<Record>, files: set<string>, t: int, now: int)
    requires Stores(stored, files, t) && SessionSeconds <= now - t < SecondsPerDay
    ensures LoadRecord(stored, now) == {}
  {
  }

  /**
   * Only the seconds within the last day count: a record saved whole days
   * earlier, plus less than an hour, is loaded again.
   */
  lemma {:induction false} FreshAcrossDays(t: int, now: int, days: nat)
    requires 0 <= now - t < SessionSeconds
    ensures Fresh(t, now + days * SecondsPerDay)
  {
    assert (now - t + days * SecondsPerDay) % SecondsPerDay == now - t by {
      var x := now - t;
      assert x + days * SecondsPerDay == days * SecondsPerDay + x;
    }
  }

  /** A timestamp less than a day in the future reads as stale. */
  lemma FutureStampStale(t: int, now: int)
    requires t - SecondsPerDay + SessionSeconds <= now < t
    ensures !Fresh(t, now)
  {
    assert (now - t) % SecondsPerDay == now - t + SecondsPerDay;
  }

  /** A missing or unreadable record, or one without a timestamp, gives the empty set. */
  lemma NoStampNothingLoaded(stored: Option<Record>, now: int)
    requires stored.None? || stored.value.timestamp.None?
    ensures LoadRecord(stored, now) == {}
  {
  }

  /** Adding the path grows the set by one exactly when the path is new. */
  lemma TrackedSize(files: set<string>, path: string)
    ensures |files + {path}| == if path in files then |files| else |files| + 1
  {
    if path !in files {
      assert files + {path} == files + {path};
      assert files !! {path};
    } else {
      assert files + {path} == files;
    }
  }

  // ---------------------------------------------------------------------
  // Properties of the project root

  /** Each level up removes one component until none is left. */
  lemma {:induction false} AncestorParts(p: Path, k: nat)
    ensures |Ancestor(p, k).parts| == if k <= |p.parts| then |p.parts| - k else 0
    ensures k >= |p.parts| ==> Ancestor(p, k).parts == []
    decreases k
  {
    if k > 0 {
      AncestorParts(Parent(p), k - 1);
      if p.parts == [] {
        assert Parent(p) == p;
      }
    }
  }

  /** When the search finds a directory, it is the `k`-th parent for some reachable `k`. */
  lemma {:induction false} FoundDepth(p: Path, levels: nat, existing: set<Path>) returns (k: nat)
    requires FindRoot(p, levels, existing).Some?
    ensures k < levels && k <= |p.parts|
    ensures FindRoot(p, levels, existing) == Some(Ancestor(p, k))
    ensures HasMarker(Ancestor(p, k), existing)
    ensures forall j | 0 <= j < k :: !HasMarker(Ancestor(p, j), existing)
    decreases levels
  {
    if HasMarker(p, existing) {
      k := 0;
      assert Ancestor(p, 0) == p;
    } else {
      var q := Parent(p);
      var k' := FoundDepth(q, levels - 1, existing);
      k := k' + 1;
      AncestorStep(p, k);
      forall j | 0 <= j < k
        ensures !HasMarker(Ancestor(p, j), existing)
      {
        if j == 0 {
          assert Ancestor(p, 0) == p;
        } else {
          AncestorStep(p, j);
        }
      }
    }
  }

  /**
   * The search finds the nearest of the first `levels` directories upward
   * that has a marker, looking no higher than the anchor.
   */
  lemma FindRootFound(p: Path, levels: nat, existing: set<Path>)
    ensures FindRoot(p, levels, existing).Some? ==>
              exists k | 0 <= k < levels && k <= |p.parts| ::
                && FindRoot(p, levels, existing) == Some(Ancestor(p, k))
                && HasMarker(Ancestor(p, k), existing)
                && forall j | 0 <= j < k :: !HasMarker(Ancestor(p, j), existing)
  {
    if FindRoot(p, levels, existing).Some? {
      var k := FoundDepth(p, levels, existing);
    }
  }

  /** One step up from a directory below the anchor. */
  lemma AncestorStep(p: Path, k: nat)
    requires k > 0
    ensures Ancestor(p, k) == Ancestor(Parent(p), k - 1)
  {
  }

  /** A search that finds nothing passed over its start and found nothing above it. */
  lemma NotFoundStep(p: Path, levels: nat, existing: set<Path>)
    requires FindRoot(p, levels, existing).None?
    requires levels > 0 && p.parts != []
    ensures !HasMarker(p, existing)
    ensures FindRoot(Parent(p), levels - 1, existing).None?
  {
  }

  /** When the search finds nothing, no reachable directory has a marker. */
  lemma {:induction false} NotFoundUnmarked(p: Path, levels: nat, existing: set<Path>, k: nat)
    requires FindRoot(p, levels, existing).None?
    requires k < levels && k <= |p.parts|
    ensures !HasMarker(Ancestor(p, k), existing)
    decreases k
  {
    if k == 0 {
      NotFoundStart(p, levels, existing);
    } else {
      NotFoundStep(p, levels, existing);
      AncestorStep(p, k);
      NotFoundUnmarked(Parent(p), levels - 1, existing, k - 1);
    }
  }

  /** A search that finds nothing passed over its start. */
  lemma NotFoundStart(p: Path, levels: nat, existing: set<Path>)
    requires FindRoot(p, levels, existing).None? && levels > 0
    ensures !HasMarker(Ancestor(p, 0), existing)
  {
  }

  /** A search from an unmarked directory below the anchor continues one level up. */
  lemma FoundAboveStep(p: Path, levels: nat, existing: set<Path>)
    requires levels > 0 && p.parts != [] && !HasMarker(p, existing)
    ensures FindRoot(p, levels, existing) == FindRoot(Parent(p), levels - 1, existing)
  {
  }

  /** Directories unmarked up to depth `k` from `p` are unmarked up to depth `k - 1` from its parent. */
  lemma UnmarkedShift(p: Path, existing: set<Path>, k: nat)
    requires k > 0
    requires forall j | 0 <= j < k :: !HasMarker(Ancestor(p, j), existing)
    ensures !HasMarker(p, existing)
    ensures forall j | 0 <= j < k - 1 :: !HasMarker(Ancestor(Parent(p), j), existing)
  {
    assert Ancestor(p, 0) == p;
    forall j | 0 <= j < k - 1
      ensures !HasMarker(Ancestor(Parent(p), j), existing)
    {
      AncestorStep(p, j + 1);
    }
  }

  /** Conversely, the nearest marked directory within reach is the one found. */
  lemma {:induction false} NearestMarkerFound(p: Path, levels: nat, existing: set<Path>, k: nat)
    requires k < levels && k <= |p.parts| && HasMarker(Ancestor(p, k), existing)
    requires forall j | 0 <= j < k :: !HasMarker(Ancestor(p, j), existing)
    ensures FindRoot(p, levels, existing) == Some(Ancestor(p, k))
    decreases k
  {
    if k == 0 {
      assert Ancestor(p, 0) == p;
    } else {
      UnmarkedShift(p, existing, k);
      AncestorStep(p, k);
      NearestMarkerFound(Parent(p), levels - 1, existing, k - 1);
      FoundAboveStep(p, levels, existing);
    }
  }

  // ---------------------------------------------------------------------
  // Properties of the reminder

  /** The last component of a name holds no character the name lacks. */
  lemma BasenameChars(n: string, c: char)
    requires c !in n
    ensures c !in Basename(n)
  {
    var r := Basename(n);
    assert r == n[|n| - |r|..];
    forall i | 0 <= i < |r|
      ensures r[i] != c
    {
      assert r[i] == n[|n| - |r| + i];
    }
  }

  lemma BulletOneLine(n: string)
    requires '\n' !in n
    ensures '\n' !in "  - " + Basename(n)
  {
    var r := Basename(n);
    BasenameChars(n, '\n');
    assert forall i | 0 <= i < 4 :: "  - "[i] != '\n';
    NotInConcat("  - ", r, '\n');
  }

  lemma BulletsOneLine(shown: seq<string>)
    requires forall n <- shown :: '\n' !in n
    ensures forall k | 0 <= k < |BasenameBullets(shown)| :: '\n' !in BasenameBullets(shown)[k]
  {
    forall k | 0 <= k < |shown|
      ensures '\n' !in BasenameBullets(shown)[k]
    {
      assert shown[k] in shown;
      BulletOneLine(shown[k]);
    }
  }

  lemma MoreOneLine(m: nat)
    ensures '\n' !in MoreText(m)
  {
    assert forall ch <- NatToString(m) :: IsDigit(ch);
  }

  /** The line that counts the files beyond the first five. */
  function MoreText(rest: int): string {
    "  ... and " + IntToString(rest) + " more files"
  }

  lemma SplitListed(bullets: seq<string>, more: string)
    requires bullets != [] && forall k | 0 <= k < |bullets| :: '\n' !in bullets[k]
    requires '\n' !in more
    ensures Split(JoinWith(bullets, "\n") + ("\n" + more), '\n') == bullets + [more]
  {
    var all := bullets + [more];
    assert JoinWith(bullets, "\n") + ("\n" + more) == JoinWith(all, ['\n']) by {
      JoinWithSnoc(bullets, more, "\n");
    }
    assert forall piece <- all :: '\n' !in piece by {
      forall piece <- all
        ensures '\n' !in piece
      {
        var k :| 0 <= k < |all| && all[k] == piece;
        if k < |bullets| {
          assert piece == bullets[k];
        }
      }
    }
    SplitJoin(all, '\n');
  }

  lemma LongListLines(names: seq<string>)
    requires |names| > ListedFiles && forall n <- names :: '\n' !in n
    ensures Split(FilesList(names), '\n') ==
              BasenameBullets(names[..ListedFiles]) + [MoreText(|names| - ListedFiles)]
  {
    var shown := names[..ListedFiles];
    forall n <- shown
      ensures '\n' !in n
    {
      assert n in names;
    }
    BulletsOneLine(shown);
    var rest := |names| - ListedFiles;
    var bullets, more := BasenameBullets(shown), MoreText(rest);
    MoreOneLine(rest);
    assert FilesList(names) == JoinWith(bullets, "\n") + ("\n" + more) by {
      assert MoreLine(rest) == "\n" + more;
    }
    SplitListed(bullets, more);
  }

  lemma ShortListLines(names: seq<string>)
    requires 0 < |names| <= ListedFiles && forall n <- names :: '\n' !in n
    ensures Split(FilesList(names), '\n') == BasenameBullets(names)
  {
    BulletsOneLine(names);
    var bullets := BasenameBullets(names);
    assert forall b <- bullets :: '\n' !in b;
    SplitJoin(bullets, '\n');
  }

  /**
   * The listing shows one line per file for at most five files, then one
   * more line with the number of the others exactly when there are more
   * than five.
   */
  lemma FilesListLines(names: seq<string>)
    requires names != [] && forall n <- names :: '\n' !in n
    ensures var lines := Split(FilesList(names), '\n');
            && |lines| == (if |names| <= ListedFiles then |names| else ListedFiles + 1)
            && (forall k | 0 <= k < |lines| && k < ListedFiles ::
                  lines[k] == "  - " + Basename(names[k]))
            && (|names| > ListedFiles ==> lines[ListedFiles] == MoreText(|names| - ListedFiles))
  {
    var lines := Split(FilesList(names), '\n');
    if |names| > ListedFiles {
      var bullets := BasenameBullets(names[..ListedFiles]);
      LongListLines(names);
      assert lines == bullets + [MoreText(|names| - ListedFiles)];
      forall k | 0 <= k < ListedFiles
        ensures lines[k] == "  - " + Basename(names[k])
      {
        assert lines[k] == bullets[k];
        assert names[..ListedFiles][k] == names[k];
      }
    } else {
      ShortListLines(names);
    }
  }
}
