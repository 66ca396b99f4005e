/**
 * processDirectory: the sequential walk over a directory tree that submits
 * one task per image file, shallow or recursive, and stops early once the
 * cancellation flag is seen.
 */
module Walk {
  import opened Names
  import opened Sequences

  /**
   * What a directory listing yields.  `Unreadable` is a directory whose listing
   * fails with an I/O error; the walk reports it and submits nothing from it.
   */
  datatype Entry =
    | File(name: string)
    | Dir(name: string, children: seq<Entry>)
    | Unreadable(name: string)

  /** A path: the root directory followed by the names below it. */
  type Path = seq<string>

  /**
   * The cancellation flag as the walk sees it.  Another thread sets it once and
   * never clears it, so each poll reads false until some poll and true from then
   * on; `FromPoll(first)` is the flag that reads true from poll number `first`.
   */
  datatype CancelSchedule = Never | FromPoll(first: nat)
  {
    predicate SetAt(poll: nat)
    {
      FromPoll? && first <= poll
    }
  }

  /** The paths a walk submits, in order, and the number of polls made by its end. */
  datatype Trace = Trace(submitted: seq<Path>, polls: nat)

  // ---------------------------------------------------------------------------
  // The walk as functions of the tree and the poll count at its start
  // ---------------------------------------------------------------------------

  /** One call of processDirectory on `dir`, whose path is `dirPath`. */
  function WalkDir(dir: Entry, dirPath: Path, recursive: bool, schedule: CancelSchedule, t: nat): (r: Trace)
    ensures t < r.polls && |r.submitted| < r.polls - t
    decreases dir, 1
  {
    if schedule.SetAt(t) then Trace([], t + 1)
    else match dir
      case Dir(_, children) => WalkChildren(children, dirPath, recursive, schedule, t + 1)
      case _ => Trace([], t + 1)
  }

  /** The forEach over a listing, in listing order. */
  function WalkChildren(children: seq<Entry>, dirPath: Path, recursive: bool, schedule: CancelSchedule, t: nat): (r: Trace)
    ensures t + |children| <= r.polls && |r.submitted| <= r.polls - t
    decreases children, 0
  {
    if children == [] then Trace([], t)
    else
      var head := WalkEntry(children[0], dirPath, recursive, schedule, t);
      var rest := WalkChildren(children[1..], dirPath, recursive, schedule, head.polls);
      Trace(head.submitted + rest.submitted, rest.polls)
  }

  /** The body of the forEach for one listed entry. */
  function WalkEntry(entry: Entry, dirPath: Path, recursive: bool, schedule: CancelSchedule, t: nat): (r: Trace)
    ensures t < r.polls && |r.submitted| <= r.polls - t
    decreases entry, 2
  {
    if schedule.SetAt(t) then Trace([], t + 1)
    else match entry
      case File(name) => Trace(if IsImageName(name) then [dirPath + [name]] else [], t + 1)
      case _ =>
        if recursive then WalkDir(entry, dirPath + [entry.name], true, schedule, t + 1)
        else Trace([], t + 1)
  }

  // ---------------------------------------------------------------------------
  // The image files of a tree, without cancellation
  // ---------------------------------------------------------------------------

  /** The image files listed in `dir` (and, when recursive, below it), in listing order. */
  function DirImages(dir: Entry, dirPath: Path, recursive: bool): seq<Path>
    decreases dir, 1
  {
    match dir
    case Dir(_, children) => ImagesOf(children, dirPath, recursive)
    case _ => []
  }

  function ImagesOf(children: seq<Entry>, dirPath: Path, recursive: bool): seq<Path>
    decreases children, 0
  {
    if children == [] then [] else EntryImages(children[0], dirPath, recursive) + ImagesOf(children[1..], dirPath, recursive)
  }

  function EntryImages(entry: Entry, dirPath: Path, recursive: bool): seq<Path>
    decreases entry, 2
  {
    match entry
    case File(name) => if IsImageName(name) then [dirPath + [name]] else []
    case _ => if recursive then DirImages(entry, dirPath + [entry.name], true) else []
  }

  /** `p` is the path of an image file at any depth under `entry`, which sits in `dirPath`. */
  ghost predicate ImageUnder(entry: Entry, dirPath: Path, p: Path)
  {
    match entry
    case File(name) => IsImageName(name) && p == dirPath + [name]
    case Dir(name, children) => exists i :: 0 <= i < |children| && ImageUnder(children[i], dirPath + [name], p)
    case Unreadable(_) => false
  }

  /** Sibling names are distinct at every level, as in a real file system. */
  ghost predicate WellNamed(entry: Entry)
  {
    match entry
    case Dir(_, children) =>
      && (forall i, j :: 0 <= i < j < |children| ==> children[i].name != children[j].name)
      && (forall i :: 0 <= i < |children| ==> WellNamed(children[i]))
    case _ => true
  }

  // ---------------------------------------------------------------------------
  // Cancellation
  // ---------------------------------------------------------------------------

  /** Once the flag reads true, every remaining entry of a listing is skipped, one poll each. */
  lemma {:induction false} SkipAllOnceSet(children: seq<Entry>, dirPath: Path, recursive: bool, schedule: CancelSchedule, t: nat)
    requires schedule.SetAt(t)
    ensures WalkChildren(children, dirPath, recursive, schedule, t) == Trace([], t + |children|)
    decreases children
  {
    if children != [] {
      SkipAllOnceSet(children[1..], dirPath, recursive, schedule, t + 1);
    }
  }

  /** If the flag is set when processDirectory starts, it submits nothing. */
  lemma CancelledWalkSubmitsNothing(dir: Entry, dirPath: Path, recursive: bool, schedule: CancelSchedule, t: nat)
    requires schedule.SetAt(t)
    ensures WalkDir(dir, dirPath, recursive, schedule, t).submitted == []
  {
  }

  /** With the flag never set, the walk submits exactly the image files of the tree. */
  lemma {:induction false} UncancelledDir(dir: Entry, dirPath: Path, recursive: bool, t: nat)
    ensures WalkDir(dir, dirPath, recursive, Never, t).submitted == DirImages(dir, dirPath, recursive)
    decreases dir, 1
  {
    match dir
    case Dir(_, children) => UncancelledChildren(children, dirPath, recursive, t + 1);
    case _ =>
  }

  lemma {:induction false} UncancelledChildren(children: seq<Entry>, dirPath: Path, recursive: bool, t: nat)
    ensures WalkChildren(children, dirPath, recursive, Never, t).submitted == ImagesOf(children, dirPath, recursive)
    decreases children, 0
  {
    if children != [] {
      UncancelledEntry(children[0], dirPath, recursive, t);
      var head := WalkEntry(children[0], dirPath, recursive, Never, t);
      UncancelledChildren(children[1..], dirPath, recursive, head.polls);
    }
  }

  lemma {:induction false} UncancelledEntry(entry: Entry, dirPath: Path, recursive: bool, t: nat)
    ensures WalkEntry(entry, dirPath, recursive, Never, t).submitted == EntryImages(entry, dirPath, recursive)
    decreases entry, 2
  {
    if !entry.File? && recursive {
      UncancelledDir(entry, dirPath + [entry.name], true, t + 1);
    }
  }

  /**
   * Under any cancellation schedule the walk submits a prefix of the
   * uncancelled walk's submissions, in the same order; if it stops short, its
   * own last poll read the flag as set.  Polls only move forward.
   */
  lemma {:induction false} CancelledDirIsPrefix(dir: Entry, dirPath: Path, recursive: bool, schedule: CancelSchedule, t: nat)
    ensures var r := WalkDir(dir, dirPath, recursive, schedule, t);
      && t < r.polls
      && r.submitted <= DirImages(dir, dirPath, recursive)
      && (r.submitted == DirImages(dir, dirPath, recursive) || schedule.SetAt(r.polls - 1))
    decreases dir, 1
  {
    if !schedule.SetAt(t) && dir.Dir? {
      CancelledChildrenIsPrefix(dir.children, dirPath, recursive, schedule, t + 1);
    }
  }

  lemma {:induction false} CancelledChildrenIsPrefix(children: seq<Entry>, dirPath: Path, recursive: bool, schedule: CancelSchedule, t: nat)
    ensures var r := WalkChildren(children, dirPath, recursive, schedule, t);
      && t <= r.polls
      && r.submitted <= ImagesOf(children, dirPath, recursive)
      && (r.submitted == ImagesOf(children, dirPath, recursive) || (t < r.polls && schedule.SetAt(r.polls - 1)))
    decreases children, 0
  {
    if children != [] {
      var head := WalkEntry(children[0], dirPath, recursive, schedule, t);
      var rest := WalkChildren(children[1..], dirPath, recursive, schedule, head.polls);
      var headAll, restAll := EntryImages(children[0], dirPath, recursive), ImagesOf(children[1..], dirPath, recursive);
      CancelledEntryIsPrefix(children[0], dirPath, recursive, schedule, t);
      if head.submitted == headAll {
        CancelledChildrenIsPrefix(children[1..], dirPath, recursive, schedule, head.polls);
      } else {
        SkipAllOnceSet(children[1..], dirPath, recursive, schedule, head.polls);
        assert head.submitted + rest.submitted == head.submitted;
        assert |head.submitted| < |headAll|;
      }
    }
  }

  lemma {:induction false} CancelledEntryIsPrefix(entry: Entry, dirPath: Path, recursive: bool, schedule: CancelSchedule, t: nat)
    ensures var r := WalkEntry(entry, dirPath, recursive, schedule, t);
      && t < r.polls
      && r.submitted <= EntryImages(entry, dirPath, recursive)
      && (r.submitted == EntryImages(entry, dirPath, recursive) || schedule.SetAt(r.polls - 1))
    decreases entry, 2
  {
    if !schedule.SetAt(t) && !entry.File? && recursive {
      CancelledDirIsPrefix(entry, dirPath + [entry.name], true, schedule, t + 1);
    }
  }

  // ---------------------------------------------------------------------------
  // Which files are submitted
  // ---------------------------------------------------------------------------

  /**
   * Shallow walk: exactly the image files listed directly in the directory are
   * submitted; subdirectories are not entered.
   */
  lemma {:induction false} ShallowImages(children: seq<Entry>, dirPath: Path, p: Path)
    ensures p in ImagesOf(children, dirPath, false) <==>
      exists i :: 0 <= i < |children| && children[i].File? && IsImageName(children[i].name) && p == dirPath + [children[i].name]
    decreases children
  {
    if children != [] {
      ShallowImages(children[1..], dirPath, p);
      if p in ImagesOf(children[1..], dirPath, false) {
        var i :| 0 <= i < |children[1..]| && children[1..][i].File? && IsImageName(children[1..][i].name) && p == dirPath + [children[1..][i].name];
        assert children[i + 1] == children[1..][i];
      }
      if exists i :: 0 <= i < |children| && children[i].File? && IsImageName(children[i].name) && p == dirPath + [children[i].name] {
        var i :| 0 <= i < |children| && children[i].File? && IsImageName(children[i].name) && p == dirPath + [children[i].name];
        if i > 0 {
          assert children[1..][i - 1] == children[i];
        }
      }
    }
  }

  /** Recursive walk: the submitted paths are exactly the image files at every depth. */
  lemma {:induction false} RecursiveImagesOf(children: seq<Entry>, dirPath: Path, p: Path)
    ensures p in ImagesOf(children, dirPath, true) <==> exists i :: 0 <= i < |children| && ImageUnder(children[i], dirPath, p)
    decreases children, 0
  {
    if children != [] {
      RecursiveImagesEntry(children[0], dirPath, p);
      RecursiveImagesOf(children[1..], dirPath, p);
      if p in ImagesOf(children[1..], dirPath, true) {
        var i :| 0 <= i < |children[1..]| && ImageUnder(children[1..][i], dirPath, p);
        assert children[i + 1] == children[1..][i];
      }
      if exists i :: 0 <= i < |children| && ImageUnder(children[i], dirPath, p) {
        var i :| 0 <= i < |children| && ImageUnder(children[i], dirPath, p);
        if i > 0 {
          assert children[1..][i - 1] == children[i];
        }
      }
    }
  }

  lemma {:induction false} RecursiveImagesEntry(entry: Entry, dirPath: Path, p: Path)
    ensures p in EntryImages(entry, dirPath, true) <==> ImageUnder(entry, dirPath, p)
    decreases entry, 1
  {
    if entry.Dir? {
      RecursiveImagesOf(entry.children, dirPath + [entry.name], p);
    }
  }

  /** Every path an entry contributes lies below that entry. */
  lemma {:induction false} EntryImagesBelow(entry: Entry, dirPath: Path, recursive: bool, p: Path)
    requires p in EntryImages(entry, dirPath, recursive)
    ensures |p| > |dirPath| && p[..|dirPath| + 1] == dirPath + [entry.name]
    decreases entry, 2
  {
    if entry.Dir? {
      var j := ImagesOfBelow(entry.children, dirPath + [entry.name], recursive, p);
      assert p[..|dirPath| + 1] == p[..|dirPath| + 2][..|dirPath| + 1];
    }
  }

  /** Every path a listing contributes lies below one of its entries. */
  lemma {:induction false} ImagesOfBelow(children: seq<Entry>, dirPath: Path, recursive: bool, p: Path) returns (j: nat)
    requires p in ImagesOf(children, dirPath, recursive)
    ensures j < |children| && |p| > |dirPath| && p[..|dirPath| + 1] == dirPath + [children[j].name]
    decreases children, 0
  {
    if p in EntryImages(children[0], dirPath, recursive) {
      EntryImagesBelow(children[0], dirPath, recursive, p);
      j := 0;
    } else {
      var k := ImagesOfBelow(children[1..], dirPath, recursive, p);
      j := k + 1;
    }
  }

  /** In a tree with distinct sibling names no path is submitted twice. */
  lemma {:induction false} EntryImagesDistinct(entry: Entry, dirPath: Path, recursive: bool)
    requires WellNamed(entry)
    ensures Distinct(EntryImages(entry, dirPath, recursive))
    decreases entry, 2
  {
    if entry.Dir? && recursive {
      ImagesOfDistinct(entry.children, dirPath + [entry.name], recursive);
    }
  }

  lemma {:induction false} ImagesOfDistinct(children: seq<Entry>, dirPath: Path, recursive: bool)
    requires forall i, j :: 0 <= i < j < |children| ==> children[i].name != children[j].name
    requires forall i :: 0 <= i < |children| ==> WellNamed(children[i])
    ensures Distinct(ImagesOf(children, dirPath, recursive))
    decreases children, 0
  {
    if children != [] {
      var head, rest := EntryImages(children[0], dirPath, recursive), ImagesOf(children[1..], dirPath, recursive);
      EntryImagesDistinct(children[0], dirPath, recursive);
      ImagesOfDistinct(children[1..], dirPath, recursive);
      forall q | q in rest
        ensures |q| > |dirPath| && q[|dirPath|] != children[0].name
      {
        var j := ImagesOfBelow(children[1..], dirPath, recursive, q);
        assert q[|dirPath|] == q[..|dirPath| + 1][|dirPath|];
        assert children[1..][j] == children[j + 1];
      }
      forall p | p in head
        ensures |p| > |dirPath| && p[|dirPath|] == children[0].name
      {
        EntryImagesBelow(children[0], dirPath, recursive, p);
        assert p[|dirPath|] == p[..|dirPath| + 1][|dirPath|];
      }
      DistinctConcat(head, rest);
    }
  }

  /**
   * The recursive walk of a tree with distinct sibling names submits every
   * image file at every depth, nothing else, and nothing twice; whatever the
   * cancellation schedule, it submits no path twice.
   */
  lemma RecursiveWalkSubmitsEachImageOnce(root: Entry, rootPath: Path, schedule: CancelSchedule, t: nat)
    requires root.Dir? && WellNamed(root)
    ensures Distinct(WalkDir(root, rootPath, true, schedule, t).submitted)
    ensures forall p :: p in WalkDir(root, rootPath, true, Never, t).submitted <==>
      exists i :: 0 <= i < |root.children| && ImageUnder(root.children[i], rootPath, p)
  {
    UncancelledDir(root, rootPath, true, t);
    CancelledDirIsPrefix(root, rootPath, true, schedule, t);
    ImagesOfDistinct(root.children, rootPath, true);
    forall p
      ensures p in ImagesOf(root.children, rootPath, true) <==>
        exists i :: 0 <= i < |root.children| && ImageUnder(root.children[i], rootPath, p)
    {
      RecursiveImagesOf(root.children, rootPath, p);
    }
  }

  /**
   * The shallow walk submits exactly the image files listed directly in the
   * root; no path below a subdirectory is submitted.
   */
  lemma ShallowWalkSubmitsDirectImages(root: Entry, rootPath: Path, t: nat)
    requires root.Dir?
    ensures forall p :: p in WalkDir(root, rootPath, false, Never, t).submitted <==>
      exists i :: 0 <= i < |root.children| && root.children[i].File? && IsImageName(root.children[i].name)
        && p == rootPath + [root.children[i].name]
  {
    UncancelledDir(root, rootPath, false, t);
    forall p
      ensures p in ImagesOf(root.children, rootPath, false) <==>
        exists i :: 0 <= i < |root.children| && root.children[i].File? && IsImageName(root.children[i].name)
          && p == rootPath + [root.children[i].name]
    {
      ShallowImages(root.children, rootPath, p);
    }
  }

  /** The tree {a.png, b.txt, sub/c.jpg} used by the two example lemmas below. */
  function ExampleRoot(): Entry
  {
    Dir("src", [File("a.png"), File("b.txt"), Dir("sub", [File("c.jpg")])])
  }

  lemma ExamplePng(recursive: bool)
    ensures EntryImages(File("a.png"), ["src"], recursive) == [["src", "a.png"]]
  {
    ImageNameExamples();
    assert ["src"] + ["a.png"] == ["src", "a.png"];
  }

  lemma ExampleTxt(recursive: bool)
    ensures EntryImages(File("b.txt"), ["src"], recursive) == []
  {
    TextFileIsNotImage();
  }

  lemma ExampleJpg(recursive: bool)
    ensures EntryImages(File("c.jpg"), ["src", "sub"], recursive) == [["src", "sub", "c.jpg"]]
  {
    assert IsImageName("c.jpg") by {
      assert Lower("c.jpg") == "c.jpg";
      assert ".jpg" in ImageExtensions && EndsWith("c.jpg", ".jpg");
    }
    assert ["src", "sub"] + ["c.jpg"] == ["src", "sub", "c.jpg"];
  }

  /** Recursively, a.png and sub/c.jpg are submitted and b.txt is not. */
  lemma ExampleRecursiveWalk()
    ensures WalkDir(ExampleRoot(), ["src"], true, Never, 0).submitted == [["src", "a.png"], ["src", "sub", "c.jpg"]]
  {
    var a, b, c := File("a.png"), File("b.txt"), File("c.jpg");
    var sub := Dir("sub", [c]);
    var pa, pc: Path := ["src", "a.png"], ["src", "sub", "c.jpg"];
    UncancelledDir(ExampleRoot(), ["src"], true, 0);
    assert EntryImages(sub, ["src"], true) == [pc] by {
      ExampleJpg(true);
      assert ["src"] + ["sub"] == ["src", "sub"];
      assert [c][1..] == [];
      assert ImagesOf([c], ["src", "sub"], true) == [pc] + [];
    }
    assert ImagesOf([sub], ["src"], true) == [pc] by {
      assert [sub][1..] == [];
    }
    assert ImagesOf([b, sub], ["src"], true) == [pc] by {
      ExampleTxt(true);
      assert [b, sub][1..] == [sub];
    }
    assert ImagesOf([a, b, sub], ["src"], true) == [pa, pc] by {
      ExamplePng(true);
      assert [a, b, sub][1..] == [b, sub];
    }
  }

  /** Shallowly, only a.png is submitted. */
  lemma ExampleShallowWalk()
    ensures WalkDir(ExampleRoot(), ["src"], false, Never, 0).submitted == [["src", "a.png"]]
  {
    var a, b := File("a.png"), File("b.txt");
    var sub := Dir("sub", [File("c.jpg")]);
    var pa: Path := ["src", "a.png"];
    UncancelledDir(ExampleRoot(), ["src"], false, 0);
    assert ImagesOf([sub], ["src"], false) == [] by {
      assert [sub][1..] == [];
    }
    assert ImagesOf([b, sub], ["src"], false) == [] by {
      ExampleTxt(false);
      assert [b, sub][1..] == [sub];
    }
    assert ImagesOf([a, b, sub], ["src"], false) == [pa] by {
      ExamplePng(false);
      assert [a, b, sub][1..] == [b, sub];
    }
  }

  /**
   * ESC pressed before the walk starts: a walk that polled a flag already set
   * would submit nothing, but MainSubmit, which is what main does, still
   * submits both image files of the example tree.
   */
  lemma EarlyEscIsIgnored()
    ensures WalkDir(ExampleRoot(), ["src"], true, FromPoll(0), 0).submitted == []
    ensures DirImages(ExampleRoot(), ["src"], true) == [["src", "a.png"], ["src", "sub", "c.jpg"]]
  {
    ExampleRecursiveWalk();
    UncancelledDir(ExampleRoot(), ["src"], true, 0);
  }

  /** Walking a listing from position `i` is walking entry `i`, then the rest. */
  lemma WalkChildrenStep(children: seq<Entry>, i: nat, dirPath: Path, recursive: bool, schedule: CancelSchedule, t: nat)
    requires i < |children|
    ensures var head := WalkEntry(children[i], dirPath, recursive, schedule, t);
      var rest := WalkChildren(children[i + 1..], dirPath, recursive, schedule, head.polls);
      WalkChildren(children[i..], dirPath, recursive, schedule, t) == Trace(head.submitted + rest.submitted, rest.polls)
  {
    assert children[i..][0] == children[i] && children[i..][1..] == children[i + 1..];
  }

  // ---------------------------------------------------------------------------
  // The walk as the source runs it: appending to the shared task list
  // ---------------------------------------------------------------------------

  /**
   * The state processDirectory works on: the list of submitted tasks (the
   * `futures` list, each task named by its file path) and the number of times
   * the cancellation flag has been read so far.
   */
  class Walker {
    const schedule: CancelSchedule
    var polls: nat
    var submitted: seq<Path>

    constructor (schedule: CancelSchedule)
      ensures this.schedule == schedule && polls == 0 && submitted == []
    {
      this.schedule := schedule;
      polls := 0;
      submitted := [];
    }

    /** Reads the cancellation flag. */
    method IsCancelled() returns (cancelled: bool)
      modifies this
      ensures cancelled == schedule.SetAt(old(polls))
      ensures polls == old(polls) + 1 && submitted == old(submitted)
    {
      cancelled := schedule.SetAt(polls);
      polls := polls + 1;
    }

    /**
     * processDirectory: appends to the task list what WalkDir submits, and
     * leaves it unchanged when the flag is already set on entry.
     */
    method ProcessDirectory(dir: Entry, dirPath: Path, recursive: bool)
      modifies this
      ensures var r := WalkDir(dir, dirPath, recursive, schedule, old(polls));
        submitted == old(submitted) + r.submitted && polls == r.polls
      ensures schedule.SetAt(old(polls)) ==> submitted == old(submitted)
      decreases dir, 1
    {
      var cancelled := IsCancelled();
      if cancelled {
        return;
      }
      if !dir.Dir? {
        // the listing fails: the error is reported and nothing is submitted
        return;
      }
      VisitListing(dir.children, dirPath, recursive);
    }

    /** The forEach over one listing, entry by entry in listing order. */
    method VisitListing(children: seq<Entry>, dirPath: Path, recursive: bool)
      modifies this
      ensures var r := WalkChildren(children, dirPath, recursive, schedule, old(polls));
        submitted == old(submitted) + r.submitted && polls == r.polls
      decreases children, 0
    {
      ghost var all := WalkChildren(children, dirPath, recursive, schedule, polls);
      var i := 0;
      assert children[i..] == children;
      while i < |children|
        invariant 0 <= i <= |children|
        invariant var rest := WalkChildren(children[i..], dirPath, recursive, schedule, polls);
          old(submitted) + all.submitted == submitted + rest.submitted && all.polls == rest.polls
      {
        WalkChildrenStep(children, i, dirPath, recursive, schedule, polls);
        ghost var before := submitted;
        ghost var head := WalkEntry(children[i], dirPath, recursive, schedule, polls);
        VisitEntry(children[i], dirPath, recursive);
        ghost var rest := WalkChildren(children[i + 1..], dirPath, recursive, schedule, polls);
        assert before + (head.submitted + rest.submitted) == submitted + rest.submitted;
        i := i + 1;
      }
      assert children[i..] == [];
    }

    /**
     * The body of the forEach: skip the entry once the flag is set; enter a
     * subdirectory only when recursive; submit a file only when it is an image.
     */
    method VisitEntry(entry: Entry, dirPath: Path, recursive: bool)
      modifies this
      ensures var r := WalkEntry(entry, dirPath, recursive, schedule, old(polls));
        submitted == old(submitted) + r.submitted && polls == r.polls
      decreases entry, 2
    {
      var cancelled := IsCancelled();
      if cancelled {
        return;
      }
      match entry {
        case File(name) =>
          if IsImageName(name) {
            submitted := submitted + [dirPath + [name]];
          }
        case _ =>
          if recursive {
            ProcessDirectory(entry, dirPath + [entry.name], true);
          }
      }
    }
  }

  /**
   * main's call of processDirectory on the source directory, with a fresh
   * task list: the tasks submitted, in submission order.
   */
  method Submit(sourceDir: string, root: Entry, recursive: bool, schedule: CancelSchedule) returns (tasks: seq<Path>)
    ensures tasks == WalkDir(root, [sourceDir], recursive, schedule, 0).submitted
  {
    var walker := new Walker(schedule);
    walker.ProcessDirectory(root, [sourceDir], recursive);
    tasks := walker.submitted;
  }

  /**
   * main as written: the thread that sets the flag on ESC is created and
   * started only after processDirectory has returned, so every poll of the
   * walk reads false and the walk submits every image file of the tree.
   */
  method MainSubmit(sourceDir: string, root: Entry, recursive: bool) returns (tasks: seq<Path>)
    ensures tasks == DirImages(root, [sourceDir], recursive)
  {
    tasks := Submit(sourceDir, root, recursive, Never);
    UncancelledDir(root, [sourceDir], recursive, 0);
  }
}
