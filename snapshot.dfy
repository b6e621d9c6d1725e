/** The snapshot engine of `dir_snapshot/snapshot.py`: capturing a directory
    walk as two ordered path lists (`create_snapshot`), and turning the lines
    of two unified diffs into added and removed directories and files
    (`compare_snapshot`). */
module Snapshot {
  import opened PyStr
  import opened Difflib

  /** A captured snapshot: relative POSIX paths of the directories and of
      everything else, each in walk order. */
  datatype SnapshotData = SnapshotData(dirs: seq<string>, files: seq<string>)

  /** The outcome of comparing two snapshots. */
  datatype SnapshotCompareData = SnapshotCompareData(
    addedDirs: seq<string>,
    addedFiles: seq<string>,
    removedDirs: seq<string>,
    removedFiles: seq<string>)

  /** One entry yielded by `Path(dir).rglob("*")`: its path relative to the
      walked directory in POSIX form, and what `is_dir()` (which follows
      symbolic links) reports for it. */
  datatype WalkEntry = WalkEntry(relPath: string, isDir: bool)

  // ---------------------------------------------------------------------
  // create_snapshot

  /** The relative paths of the walk entries whose `is_dir()` is `isDir`,
      in walk order. */
  function PathsOfKind(walk: seq<WalkEntry>, isDir: bool): (r: seq<string>)
    ensures |r| <= |walk|
  {
    if walk == [] then []
    else
      var e := walk[|walk| - 1];
      PathsOfKind(walk[..|walk| - 1], isDir) + (if e.isDir == isDir then [e.relPath] else [])
  }

  /** The positions in the walk of the entries whose `is_dir()` is `isDir`. */
  function KindIndices(walk: seq<WalkEntry>, isDir: bool): seq<nat> {
    if walk == [] then []
    else
      var n := |walk| - 1;
      KindIndices(walk[..n], isDir) + (if walk[n].isDir == isDir then [n] else [])
  }

  /** Every relative path of the walk, in walk order. */
  function AllPaths(walk: seq<WalkEntry>): seq<string> {
    seq(|walk|, k requires 0 <= k < |walk| => walk[k].relPath)
  }

  /** `create_snapshot`: start with two empty lists and append each walk
      entry to `dirs` when it is a directory and to `files` otherwise. */
  method CreateSnapshot(walk: seq<WalkEntry>) returns (s: SnapshotData)
    ensures s.dirs == PathsOfKind(walk, true)
    ensures s.files == PathsOfKind(walk, false)
  {
    s := SnapshotData(dirs := [], files := []);
    for i := 0 to |walk|
      invariant s.dirs == PathsOfKind(walk[..i], true)
      invariant s.files == PathsOfKind(walk[..i], false)
    {
      assert walk[..i + 1][..i] == walk[..i];
      var path := walk[i];
      if path.isDir {
        s := s.(dirs := s.dirs + [path.relPath]);
      } else {
        s := s.(files := s.files + [path.relPath]);
      }
    }
    assert walk[..|walk|] == walk;
  }

  /** Every entry lands in exactly one of the two lists. */
  lemma {:induction false} PartitionSizes(walk: seq<WalkEntry>)
    ensures |PathsOfKind(walk, true)| + |PathsOfKind(walk, false)| == |walk|
  {
    if walk != [] {
      PartitionSizes(walk[..|walk| - 1]);
    }
  }

  /** Together the two lists hold the walk's paths, each occurrence once. */
  lemma {:induction false} PartitionMultiset(walk: seq<WalkEntry>)
    ensures multiset(PathsOfKind(walk, true)) + multiset(PathsOfKind(walk, false))
         == multiset(AllPaths(walk))
  {
    if walk != [] {
      var init := walk[..|walk| - 1];
      PartitionMultiset(init);
      assert AllPaths(walk) == AllPaths(init) + [walk[|walk| - 1].relPath];
    }
  }

  /** A path is in the list of a kind exactly when some entry of that kind
      has it. */
  lemma {:induction false} PathsOfKindMembers(walk: seq<WalkEntry>, isDir: bool, p: string)
    ensures p in PathsOfKind(walk, isDir)
        <==> exists i :: 0 <= i < |walk| && walk[i].isDir == isDir && walk[i].relPath == p
  {
    if p in PathsOfKind(walk, isDir) {
      var i := PathsOfKindSource(walk, isDir, p);
    }
    if i :| 0 <= i < |walk| && walk[i].isDir == isDir && walk[i].relPath == p {
      PathsOfKindHas(walk, isDir, i);
    }
  }

  /** A listed path comes from an entry of that kind. */
  lemma {:induction false} PathsOfKindSource(walk: seq<WalkEntry>, isDir: bool, p: string) returns (i: nat)
    requires p in PathsOfKind(walk, isDir)
    ensures i < |walk| && walk[i].isDir == isDir && walk[i].relPath == p
  {
    var n := |walk| - 1;
    var init := walk[..n];
    if p in PathsOfKind(init, isDir) {
      i := PathsOfKindSource(init, isDir, p);
      assert init[i] == walk[i];
    } else {
      i := n;
    }
  }

  /** Every entry of a kind has its path listed. */
  lemma {:induction false} PathsOfKindHas(walk: seq<WalkEntry>, isDir: bool, i: nat)
    requires i < |walk| && walk[i].isDir == isDir
    ensures walk[i].relPath in PathsOfKind(walk, isDir)
  {
    var n := |walk| - 1;
    var init := walk[..n];
    if i < n {
      PathsOfKindHas(init, isDir, i);
      assert init[i] == walk[i];
    }
  }

  /** Each list keeps walk order: its k-th path is the path of the entry at
      the k-th of a strictly increasing run of walk positions, all of that kind. */
  lemma {:induction false} PathsOfKindKeepOrder(walk: seq<WalkEntry>, isDir: bool)
    ensures |KindIndices(walk, isDir)| == |PathsOfKind(walk, isDir)|
    ensures forall k :: 0 <= k < |KindIndices(walk, isDir)| ==>
              var i := KindIndices(walk, isDir)[k];
              i < |walk| && walk[i].isDir == isDir && walk[i].relPath == PathsOfKind(walk, isDir)[k]
    ensures forall k, l :: 0 <= k < l < |KindIndices(walk, isDir)| ==>
              KindIndices(walk, isDir)[k] < KindIndices(walk, isDir)[l]
  {
    if walk != [] {
      var n := |walk| - 1;
      var init := walk[..n];
      PathsOfKindKeepOrder(init, isDir);
      var ix, ps := KindIndices(walk, isDir), PathsOfKind(walk, isDir);
      var ix0, ps0 := KindIndices(init, isDir), PathsOfKind(init, isDir);
      forall k | 0 <= k < |ix0|
        ensures ix[k] == ix0[k] < n && ps[k] == ps0[k] && walk[ix[k]] == init[ix0[k]]
      {
      }
    }
  }

  // ---------------------------------------------------------------------
  // compare_snapshot

  /** The diff lines `compare_snapshot` records as additions: no newline
      anywhere, first character '+'. */
  predicate IsAddedLine(line: string) {
    !HasNewline(line) && StartsWith(line, '+')
  }

  /** The diff lines it records as removals: no newline, first character '-'. */
  predicate IsRemovedLine(line: string) {
    !HasNewline(line) && !StartsWith(line, '+') && StartsWith(line, '-')
  }

  /** The additions the classification loop records from `lines`, in order:
      each added line with its '+' runs stripped from both ends. */
  function AddedOf(lines: seq<string>): (r: seq<string>)
    ensures |r| <= |lines|
    ensures forall k :: 0 <= k < |r| ==> Unpadded(r[k], '+')
  {
    if lines == [] then []
    else
      var line := lines[|lines| - 1];
      AddedOf(lines[..|lines| - 1]) + (if IsAddedLine(line) then [Strip(line, '+')] else [])
  }

  /** The removals it records, with '-' runs stripped from both ends. */
  function RemovedOf(lines: seq<string>): (r: seq<string>)
    ensures |r| <= |lines|
    ensures forall k :: 0 <= k < |r| ==> Unpadded(r[k], '-')
  {
    if lines == [] then []
    else
      var line := lines[|lines| - 1];
      RemovedOf(lines[..|lines| - 1]) + (if IsRemovedLine(line) then [Strip(line, '-')] else [])
  }

  /** A line is recorded at most once, as an addition or as a removal. */
  lemma {:induction false} ClassifiedLines(lines: seq<string>)
    ensures |AddedOf(lines)| + |RemovedOf(lines)| <= |lines|
  {
    if lines != [] {
      ClassifiedLines(lines[..|lines| - 1]);
    }
  }

  /** What `compare_snapshot(snap1, snap2)` returns when `unifiedDiff` is
      what `difflib.unified_diff` returns for two lists: the directory lists
      are classified from the diff of the directories alone and the file
      lists from the diff of the files alone. */
  function Compare(snap1: SnapshotData, snap2: SnapshotData,
                   unifiedDiff: (seq<string>, seq<string>) -> seq<string>): (r: SnapshotCompareData)
    ensures |r.addedDirs| + |r.removedDirs| <= |unifiedDiff(snap1.dirs, snap2.dirs)|
    ensures |r.addedFiles| + |r.removedFiles| <= |unifiedDiff(snap1.files, snap2.files)|
    ensures unifiedDiff(snap1.dirs, snap2.dirs) == [] ==> r.addedDirs == [] && r.removedDirs == []
    ensures unifiedDiff(snap1.files, snap2.files) == [] ==> r.addedFiles == [] && r.removedFiles == []
  {
    var dirLines := unifiedDiff(snap1.dirs, snap2.dirs);
    var fileLines := unifiedDiff(snap1.files, snap2.files);
    ClassifiedLines(dirLines);
    ClassifiedLines(fileLines);
    SnapshotCompareData(
      addedDirs := AddedOf(dirLines), addedFiles := AddedOf(fileLines),
      removedDirs := RemovedOf(dirLines), removedFiles := RemovedOf(fileLines))
  }

  /** `compare_snapshot`: two diffs, four empty lists, and one loop per diff
      that appends each newline-free '+' or '-' line, stripped, to the
      matching list. */
  method CompareSnapshot(snap1: SnapshotData, snap2: SnapshotData,
                         unifiedDiff: (seq<string>, seq<string>) -> seq<string>)
    returns (snapCompare: SnapshotCompareData)
    ensures snapCompare == Compare(snap1, snap2, unifiedDiff)
  {
    var resultDirs := unifiedDiff(snap1.dirs, snap2.dirs);
    var resultFiles := unifiedDiff(snap1.files, snap2.files);

    snapCompare := SnapshotCompareData(
      addedDirs := [], addedFiles := [], removedDirs := [], removedFiles := []);

    for i := 0 to |resultDirs|
      invariant snapCompare.addedDirs == AddedOf(resultDirs[..i])
      invariant snapCompare.removedDirs == RemovedOf(resultDirs[..i])
      invariant snapCompare.addedFiles == [] && snapCompare.removedFiles == []
    {
      assert resultDirs[..i + 1][..i] == resultDirs[..i];
      var result := resultDirs[i];
      if !HasNewline(result) {
        if StartsWith(result, '+') {
          snapCompare := snapCompare.(addedDirs := snapCompare.addedDirs + [Strip(result, '+')]);
        } else if StartsWith(result, '-') {
          snapCompare := snapCompare.(removedDirs := snapCompare.removedDirs + [Strip(result, '-')]);
        }
      }
    }
    assert resultDirs[..|resultDirs|] == resultDirs;

    for i := 0 to |resultFiles|
      invariant snapCompare.addedFiles == AddedOf(resultFiles[..i])
      invariant snapCompare.removedFiles == RemovedOf(resultFiles[..i])
      invariant snapCompare.addedDirs == AddedOf(resultDirs)
      invariant snapCompare.removedDirs == RemovedOf(resultDirs)
    {
      assert resultFiles[..i + 1][..i] == resultFiles[..i];
      var result := resultFiles[i];
      if !HasNewline(result) {
        if StartsWith(result, '+') {
          snapCompare := snapCompare.(addedFiles := snapCompare.addedFiles + [Strip(result, '+')]);
        } else if StartsWith(result, '-') {
          snapCompare := snapCompare.(removedFiles := snapCompare.removedFiles + [Strip(result, '-')]);
        }
      }
    }
    assert resultFiles[..|resultFiles|] == resultFiles;
  }

  /** Classification keeps diff order: the records of a longer diff extend
      those of its first part. */
  lemma {:induction false} ClassifyConcat(a: seq<string>, b: seq<string>)
    ensures AddedOf(a + b) == AddedOf(a) + AddedOf(b)
    ensures RemovedOf(a + b) == RemovedOf(a) + RemovedOf(b)
  {
    if b == [] {
      assert a + b == a;
    } else {
      var init := b[..|b| - 1];
      ClassifyConcat(a, init);
      assert (a + b)[..|a + b| - 1] == a + init;
      assert (a + b)[|a + b| - 1] == b[|b| - 1];
    }
  }

  /** A recorded addition comes from exactly one kind of line: a newline-free
      line starting with '+', stripped. */
  lemma {:induction false} AddedOfMembers(lines: seq<string>, x: string)
    ensures x in AddedOf(lines)
        <==> exists i :: 0 <= i < |lines| && IsAddedLine(lines[i]) && Strip(lines[i], '+') == x
  {
    if lines != [] {
      var n := |lines| - 1;
      var init := lines[..n];
      AddedOfMembers(init, x);
      if x in AddedOf(lines) && x !in AddedOf(init) {
        assert IsAddedLine(lines[n]) && Strip(lines[n], '+') == x;
      }
      if i :| 0 <= i < |lines| && IsAddedLine(lines[i]) && Strip(lines[i], '+') == x {
        if i < n {
          assert init[i] == lines[i];
        }
      }
    }
  }

  /** A recorded removal comes from a newline-free line starting with '-',
      stripped. */
  lemma {:induction false} RemovedOfMembers(lines: seq<string>, x: string)
    ensures x in RemovedOf(lines)
        <==> exists i :: 0 <= i < |lines| && IsRemovedLine(lines[i]) && Strip(lines[i], '-') == x
  {
    if lines != [] {
      var n := |lines| - 1;
      var init := lines[..n];
      RemovedOfMembers(init, x);
      if x in RemovedOf(lines) && x !in RemovedOf(init) {
        assert IsRemovedLine(lines[n]) && Strip(lines[n], '-') == x;
      }
      if i :| 0 <= i < |lines| && IsRemovedLine(lines[i]) && Strip(lines[i], '-') == x {
        if i < n {
          assert init[i] == lines[i];
        }
      }
    }
  }

  /** Lines that are neither additions nor removals (headers, which contain a
      newline, context lines, an empty diff) leave every list empty. */
  lemma {:induction false} NoChangeLinesNoRecords(lines: seq<string>)
    requires forall k :: 0 <= k < |lines| ==> !IsAddedLine(lines[k]) && !IsRemovedLine(lines[k])
    ensures AddedOf(lines) == [] && RemovedOf(lines) == []
  {
    if lines != [] {
      NoChangeLinesNoRecords(lines[..|lines| - 1]);
    }
  }

  /** The inserted and deleted elements shown by `ls` can be read back from
      its text: no newline inside them, and no tag character at either end. */
  predicate CleanChanges(ls: seq<DiffLine>) {
    && (forall x :: x in Inserted(Edits(ls)) ==> !HasNewline(x) && Unpadded(x, '+'))
    && (forall x :: x in Deleted(Edits(ls)) ==> !HasNewline(x) && Unpadded(x, '-'))
  }

  /** One rendered line: headers and context lines are never recorded, an
      inserted element is recorded as an addition and a deleted one as a
      removal, each recovered exactly by the strip. */
  lemma ClassifyLine(l: DiffLine)
    requires l.Content? && l.edit.Insert? ==> !HasNewline(l.edit.elem) && Unpadded(l.edit.elem, '+')
    requires l.Content? && l.edit.Delete? ==> !HasNewline(l.edit.elem) && Unpadded(l.edit.elem, '-')
    ensures IsAddedLine(Render(l)) <==> l.Content? && l.edit.Insert?
    ensures IsRemovedLine(Render(l)) <==> l.Content? && l.edit.Delete?
    ensures IsAddedLine(Render(l)) ==> Strip(Render(l), '+') == l.edit.elem
    ensures IsRemovedLine(Render(l)) ==> Strip(Render(l), '-') == l.edit.elem
  {
    var line := Render(l);
    match l
    case Header(t) =>
      assert line[|t|] == '\n';
    case Content(Keep(x)) =>
      assert line[0] == ' ';
    case Content(Insert(x)) =>
      TaggedNewline('+', x);
      StripPrefixed('+', x);
    case Content(Delete(x)) =>
      TaggedNewline('-', x);
      StripPrefixed('-', x);
  }

  lemma TaggedNewline(c: char, x: string)
    ensures HasNewline([c] + x) <==> c == '\n' || HasNewline(x)
  {
    var line := [c] + x;
    if HasNewline(line) && c != '\n' {
      var k :| 0 <= k < |line| && line[k] == '\n';
      assert x[k - 1] == '\n';
    }
    if HasNewline(x) {
      var k :| 0 <= k < |x| && x[k] == '\n';
      assert line[k + 1] == '\n';
    }
  }

  /** On the rendered lines of a diff, the classification loop records
      exactly the inserted elements as additions and the deleted elements as
      removals, in order, dropping headers and context. */
  lemma {:induction false} ClassifyRendered(ls: seq<DiffLine>)
    requires CleanChanges(ls)
    ensures AddedOf(RenderAll(ls)) == Inserted(Edits(ls))
    ensures RemovedOf(RenderAll(ls)) == Deleted(Edits(ls))
  {
    if ls != [] {
      var n := |ls| - 1;
      var init := ls[..n];
      var l := ls[n];
      var es0 := Edits(init);
      var es := Edits(ls);
      assert RenderAll(ls)[..n] == RenderAll(init);
      assert RenderAll(ls)[n] == Render(l);
      if l.Content? {
        assert es == es0 + [l.edit];
        assert es[..|es| - 1] == es0;
        assert Inserted(es) == Inserted(es0) + (if l.edit.Insert? then [l.edit.elem] else []);
        assert Deleted(es) == Deleted(es0) + (if l.edit.Delete? then [l.edit.elem] else []);
      } else {
        assert es == es0;
      }
      assert Inserted(es0) <= Inserted(es) && Deleted(es0) <= Deleted(es);
      ClassifyRendered(init);
      ClassifyLine(l);
    }
  }

  /** A path that can be read back from a diff line: no newline, and no '+'
      or '-' at either end. */
  predicate CleanPath(p: string) {
    !HasNewline(p) && Unpadded(p, '+') && Unpadded(p, '-')
  }

  /** When every path is clean and `lines` is the text of a unified diff of
      some edit script turning `older` into `newer`, the loop records exactly
      the script's insertions and deletions; so every path of `newer` missing
      from `older` is reported added and every path of `older` missing from
      `newer` is reported removed, nothing is reported that is not in the
      list it is attributed to, and two different lists always report
      something. */
  lemma DiffClassification(older: seq<string>, newer: seq<string>, es: seq<Edit>, ls: seq<DiffLine>)
    requires IsEditScript(es, older, newer) && ShowsChanges(ls, es)
    requires forall p :: p in older ==> CleanPath(p)
    requires forall p :: p in newer ==> CleanPath(p)
    ensures AddedOf(RenderAll(ls)) == Inserted(es)
    ensures RemovedOf(RenderAll(ls)) == Deleted(es)
    ensures forall x :: x in newer && x !in older ==> x in AddedOf(RenderAll(ls))
    ensures forall x :: x in older && x !in newer ==> x in RemovedOf(RenderAll(ls))
    ensures multiset(AddedOf(RenderAll(ls))) <= multiset(newer)
    ensures multiset(RemovedOf(RenderAll(ls))) <= multiset(older)
    ensures older != newer ==> AddedOf(RenderAll(ls)) != [] || RemovedOf(RenderAll(ls)) != []
  {
    InsertedFromTarget(es);
    DeletedFromSource(es);
    forall x | x in Inserted(Edits(ls)) ensures !HasNewline(x) && Unpadded(x, '+') {
      assert x in multiset(Inserted(es));
      assert x in multiset(newer);
      assert x in newer && CleanPath(x);
    }
    forall x | x in Deleted(Edits(ls)) ensures !HasNewline(x) && Unpadded(x, '-') {
      assert x in multiset(Deleted(es));
      assert x in multiset(older);
      assert x in older && CleanPath(x);
    }
    ClassifyRendered(ls);
    forall x | x in newer && x !in older ensures x in Inserted(es) {
      NewElementsInserted(es, x);
    }
    forall x | x in older && x !in newer ensures x in Deleted(es) {
      VanishedElementsDeleted(es, x);
    }
    if Inserted(es) == [] && Deleted(es) == [] {
      NoChangesSameLists(es);
    }
  }

  /** The comparison is a sequence diff, not a set difference: the same
      paths walked in another order are still reported as changes. */
  lemma ReorderedPathsReported(es: seq<Edit>, ls: seq<DiffLine>)
    requires IsEditScript(es, ["a.txt", "b.txt"], ["b.txt", "a.txt"]) && ShowsChanges(ls, es)
    ensures AddedOf(RenderAll(ls)) != [] || RemovedOf(RenderAll(ls)) != []
  {
    assert ["a.txt", "b.txt"] != ["b.txt", "a.txt"] by {
      assert ["a.txt", "b.txt"][0] != ["b.txt", "a.txt"][0];
    }
    assert CleanPath("a.txt") && CleanPath("b.txt");
    DiffClassification(["a.txt", "b.txt"], ["b.txt", "a.txt"], es, ls);
  }

  /** `strip` removes every tag character at both ends, so an added path
      that itself ends in '+' is recorded without it. */
  lemma AddedPathLosesTrailingPlus()
    ensures AddedOf(RenderAll([Content(Insert("c++"))])) == ["c"]
  {
    var line := Render(Content(Insert("c++")));
    assert line == "+c++";
    assert !HasNewline(line);
    assert StripLeading(line, '+') == "c++" by {
      assert line[1..] == "c++";
    }
    assert StripTrailing("c++", '+') == "c" by {
      assert "c++"[..2] == "c+" && "c+"[..1] == "c";
    }
    var lines := RenderAll([Content(Insert("c++"))]);
    assert lines == [line] && lines[..0] == [];
  }

  /** A path containing a newline is shown by the diff but never recorded. */
  lemma NewlinePathNotRecorded(x: string)
    requires HasNewline(x)
    ensures Inserted(Edits([Content(Insert(x))])) == [x]
    ensures AddedOf(RenderAll([Content(Insert(x))])) == []
  {
    var ls := [Content(Insert(x))];
    EditsSnoc([], Content(Insert(x)));
    ScriptSnoc([], Insert(x));
    assert [] + ls == ls && [] + [Insert(x)] == [Insert(x)];
    var line := "+" + x;
    TaggedNewline('+', x);
    var lines := RenderAll(ls);
    assert lines == [line] && lines[..0] == [];
  }

  // ---------------------------------------------------------------------
  // The comparison of the repository's test

  function TestOlder(): SnapshotData {
    SnapshotData(
      dirs := ["some_test"],
      files := ["test1 - Copy (2).txt", "test1 - Copy.txt", "test1.txt", "some_test/test1 - Copy.txt"])
  }

  function TestNewer(): SnapshotData {
    SnapshotData(
      dirs := ["some_test", "new_test"],
      files := ["test1 - Copy (2).txt", "some_test/test1 - Copy.txt", "new_test/test1.txt", "some_test/test2.txt"])
  }

  function TestDirsScript(): seq<Edit> {
    [Keep("some_test"), Insert("new_test")]
  }

  function TestFilesScript(): seq<Edit> {
    [Keep("test1 - Copy (2).txt"), Delete("test1 - Copy.txt"), Delete("test1.txt"),
     Keep("some_test/test1 - Copy.txt"), Insert("new_test/test1.txt"), Insert("some_test/test2.txt")]
  }

  /** The lines of a unified diff showing a script in one hunk. */
  function OneHunk(hunkHeader: string, es: seq<Edit>): (ls: seq<DiffLine>)
    ensures Edits(ls) == es
  {
    if es == [] then
      var h1, h2, h3 := Header("--- "), Header("+++ "), Header(hunkHeader);
      EditsSnoc([], h1);
      EditsSnoc([h1], h2);
      EditsSnoc([h1, h2], h3);
      assert [] + [h1] == [h1] && [h1] + [h2] == [h1, h2] && [h1, h2] + [h3] == [h1, h2, h3];
      [h1, h2, h3]
    else
      var init := es[..|es| - 1];
      EditsSnoc(OneHunk(hunkHeader, init), Content(es[|es| - 1]));
      assert init + [es[|es| - 1]] == es;
      OneHunk(hunkHeader, init) + [Content(es[|es| - 1])]
  }

  /** The test snapshots' scripts turn the older lists into the newer ones,
      inserting and deleting what the test expects. */
  lemma TestScripts()
    ensures IsEditScript(TestDirsScript(), TestOlder().dirs, TestNewer().dirs)
    ensures IsEditScript(TestFilesScript(), TestOlder().files, TestNewer().files)
    ensures Inserted(TestDirsScript()) == ["new_test"] && Deleted(TestDirsScript()) == []
    ensures Inserted(TestFilesScript()) == ["new_test/test1.txt", "some_test/test2.txt"]
    ensures Deleted(TestFilesScript()) == ["test1 - Copy.txt", "test1.txt"]
  {
    TestDirsScriptProjections();
    TestFilesScriptProjections();
  }

  /** The dirs script keeps `some_test` and adds `new_test`. */
  lemma TestDirsScriptProjections()
    ensures Source(TestDirsScript()) == TestOlder().dirs
    ensures Target(TestDirsScript()) == TestNewer().dirs
    ensures Inserted(TestDirsScript()) == ["new_test"] && Deleted(TestDirsScript()) == []
  {
    var p1 := [Keep("some_test")];
    var p2 := [Keep("some_test"), Insert("new_test")];
    ScriptSnoc([], p2[0]);
    assert [] + [p2[0]] == p1;
    ScriptSnoc(p1, p2[1]);
    assert p1 + [p2[1]] == p2;
  }

  /** The files script deletes two files and adds two, around two kept ones. */
  lemma TestFilesScriptProjections()
    ensures Source(TestFilesScript()) == TestOlder().files
    ensures Target(TestFilesScript()) == TestNewer().files
    ensures Inserted(TestFilesScript()) == ["new_test/test1.txt", "some_test/test2.txt"]
    ensures Deleted(TestFilesScript()) == ["test1 - Copy.txt", "test1.txt"]
  {
    var f := TestFilesScript();
    var h1, h2 := f[..3], f[3..];
    assert f == h1 + h2;
    ThreeSteps(f[0], f[1], f[2]);
    assert h1 == [f[0], f[1], f[2]];
    ThreeSteps(f[3], f[4], f[5]);
    assert h2 == [f[3], f[4], f[5]];
    SourceConcat(h1, h2);
    TargetConcat(h1, h2);
    InsertedConcat(h1, h2);
    DeletedConcat(h1, h2);
  }

  /** The projections of a three-step script, step by step. */
  lemma ThreeSteps(e0: Edit, e1: Edit, e2: Edit)
    ensures Source([e0, e1, e2]) == Source([e0]) + Source([e1]) + Source([e2])
    ensures Target([e0, e1, e2]) == Target([e0]) + Target([e1]) + Target([e2])
    ensures Inserted([e0, e1, e2]) == Inserted([e0]) + Inserted([e1]) + Inserted([e2])
    ensures Deleted([e0, e1, e2]) == Deleted([e0]) + Deleted([e1]) + Deleted([e2])
  {
    assert [e0] + [e1] == [e0, e1] && [e0, e1] + [e2] == [e0, e1, e2];
    SourceConcat([e0], [e1]);
    SourceConcat([e0, e1], [e2]);
    TargetConcat([e0], [e1]);
    TargetConcat([e0, e1], [e2]);
    InsertedConcat([e0], [e1]);
    InsertedConcat([e0, e1], [e2]);
    DeletedConcat([e0], [e1]);
    DeletedConcat([e0, e1], [e2]);
    OneStep(e0);
    OneStep(e1);
    OneStep(e2);
  }

  /** Every path of the test snapshots is clean: no newline, no tag at either end. */
  lemma TestPathsClean()
    ensures forall p :: p in TestOlder().dirs ==> CleanPath(p)
    ensures forall p :: p in TestNewer().dirs ==> CleanPath(p)
    ensures forall p :: p in TestOlder().files ==> CleanPath(p)
    ensures forall p :: p in TestNewer().files ==> CleanPath(p)
  {
    CleanLiteral("some_test");
    CleanLiteral("new_test");
    CleanLiteral("test1 - Copy (2).txt");
    CleanLiteral("test1 - Copy.txt");
    CleanLiteral("test1.txt");
    CleanLiteral("some_test/test1 - Copy.txt");
    CleanLiteral("new_test/test1.txt");
    CleanLiteral("some_test/test2.txt");
  }

  /** A non-empty path with no newline and no '+' or '-' at either end is clean. */
  lemma CleanLiteral(p: string)
    requires |p| > 0 && p[0] !in "+-" && p[|p| - 1] !in "+-"
    requires forall k :: 0 <= k < |p| ==> p[k] != '\n'
    ensures CleanPath(p)
  {
  }

  /** `compare_snapshot` on the repository's test: one directory and two
      files added, two files removed. */
  lemma CompareTestScenario(unifiedDiff: (seq<string>, seq<string>) -> seq<string>)
    requires unifiedDiff(TestOlder().dirs, TestNewer().dirs)
          == RenderAll(OneHunk("@@ -1 +1,2 @@", TestDirsScript()))
    requires unifiedDiff(TestOlder().files, TestNewer().files)
          == RenderAll(OneHunk("@@ -1,4 +1,4 @@", TestFilesScript()))
    ensures Compare(TestOlder(), TestNewer(), unifiedDiff) == SnapshotCompareData(
              addedDirs := ["new_test"],
              addedFiles := ["new_test/test1.txt", "some_test/test2.txt"],
              removedDirs := [],
              removedFiles := ["test1 - Copy.txt", "test1.txt"])
  {
    TestScripts();
    var d, f := TestDirsScript(), TestFilesScript();
    TestPathsClean();
    DiffClassification(TestOlder().dirs, TestNewer().dirs, d, OneHunk("@@ -1 +1,2 @@", d));
    DiffClassification(TestOlder().files, TestNewer().files, f, OneHunk("@@ -1,4 +1,4 @@", f));
  }
}
