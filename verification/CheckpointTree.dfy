// A project directory as a tree of files, and which part of it checkpoints
// leave alone.
module CheckpointTree {

  type Path = seq<string>  // the names on the way from the project directory
  type Bytes = seq<bv8>
  type Files = map<Path, Bytes>

  const SKIPPED_NAMES: set<string> := {
    ".git", ".abolqasem", ".antigravity", ".venv", "venv", ".idea", ".vscode", "node_modules",
    "vendor", "dist", "build", ".next", ".turbo", ".cache", "coverage", "target"
  }

  datatype Tree = Tree(files: Files, dirs: set<Path>)

  predicate Below(p: Path, d: Path) {
    |d| < |p| && p[..|d|] == d
  }

  // The walk enters this directory: neither it nor one above it is skipped.
  predicate Visited(d: Path) {
    forall i :: 0 <= i < |d| ==> d[i] !in SKIPPED_NAMES
  }

  // The walk finds this file.
  predicate Found(p: Path) {
    p != [] && Visited(p[..|p| - 1])
  }

  ghost predicate WellFormed(t: Tree) {
    && [] !in t.files && [] !in t.dirs && t.files.Keys !! t.dirs
    && (forall p, k :: (p in t.files || p in t.dirs) && 0 < k < |p| ==> p[..k] in t.dirs)
  }

  // The walk stops at any of these names, however deep it stands; the name of
  // the file itself is not looked at.
  lemma {:induction false} SkippedAtAnyDepth(p: Path)
    ensures Visited(p) <==> forall i :: 0 <= i < |p| ==> !IsSkipped(p[i])
    ensures Found(p) <==> p != [] && forall i :: 0 <= i < |p| - 1 ==> !IsSkipped(p[i])
  {
    hide IsSkipped;
    forall i | 0 <= i < |p| ensures IsSkipped(p[i]) <==> p[i] in SKIPPED_NAMES {
      SkippedIs(p[i]);
    }
  }

  predicate IsSkipped(name: string) {
    || name == ".git" || name == ".abolqasem" || name == ".antigravity" || name == ".venv" || name == "venv"
    || name == ".idea" || name == ".vscode" || name == "node_modules" || name == "vendor" || name == "dist"
    || name == "build" || name == ".next" || name == ".turbo" || name == ".cache" || name == "coverage" || name == "target"
  }

  lemma {:induction false} SkippedIs(name: string)
    ensures IsSkipped(name) <==> name in SKIPPED_NAMES
  {
  }

  function FoundFiles(files: Files): Files {
    map p | p in files && Found(p) :: files[p]
  }

  function HiddenFiles(files: Files): Files {
    map p | p in files && !Found(p) :: files[p]
  }

  // What a capture may store: files the walk finds, none of them inside
  // another.
  ghost predicate Storable(stored: Files) {
    && (forall p :: p in stored ==> Found(p))
    && (forall p, q :: p in stored && q in stored ==> !Below(p, q))
  }

  lemma {:induction false} FoundIsStorable(t: Tree, stored: Files)
    requires WellFormed(t) && stored.Keys <= FoundFiles(t.files).Keys
    ensures Storable(stored)
  {
    hide Found, Visited;
    forall p, q | p in stored && q in stored ensures !Below(p, q) {
      assert p in t.files && q in t.files && q != [];
    }
  }

  // ----- directories that are still needed -----

  ghost predicate HasFileBelow(files: Files, d: Path) {
    exists p :: p in files && Below(p, d)
  }

  ghost predicate HasSkippedBelow(dirs: set<Path>, d: Path) {
    exists e :: e in dirs && !Visited(e) && Below(e, d)
  }

  ghost predicate Needed(files: Files, dirs: set<Path>, d: Path) {
    !Visited(d) || HasFileBelow(files, d) || HasSkippedBelow(dirs, d)
  }

  ghost function Skeleton(files: Files, dirs: set<Path>): set<Path> {
    set d | d in dirs && Needed(files, dirs, d)
  }

  // A directory is left if something skipped or a file is in it, at any depth.
  lemma {:induction false} SkeletonIs(files: Files, dirs: set<Path>, d: Path)
    ensures d in Skeleton(files, dirs) <==>
              d in dirs && (|| InSkipped(d)
                            || (exists p :: p in files && d < p)
                            || (exists e :: e in dirs && d < e && InSkipped(e)))
  {
    hide IsSkipped, Visited;
    SkippedAtAnyDepth(d);
    forall e ensures Visited(e) <==> !InSkipped(e) {
      SkippedAtAnyDepth(e);
    }
    assert forall p: Path :: Below(p, d) <==> d < p;
  }

  predicate InSkipped(d: Path) {
    exists i :: 0 <= i < |d| && IsSkipped(d[i])
  }

  // The files of a project of which it is known what the walk finds in it.
  lemma {:induction false} FilesAre(files: Files, before: Files, stored: Files)
    requires FoundFiles(files) == stored && HiddenFiles(files) == HiddenFiles(before) && [] !in files && [] !in before
    ensures forall p :: p in files <==> p in stored || (p in before && InSkipped(p[..|p| - 1]))
    ensures forall p :: p in stored ==> files[p] == stored[p] && !InSkipped(p[..|p| - 1])
    ensures forall p :: p in before && InSkipped(p[..|p| - 1]) ==> files[p] == before[p]
  {
    hide IsSkipped, Visited;
    forall p: Path | p != [] ensures Found(p) <==> !InSkipped(p[..|p| - 1]) {
      SkippedAtAnyDepth(p[..|p| - 1]);
    }
    assert forall p :: p in before && !Found(p) ==> p in HiddenFiles(before);
    assert forall p :: p in files && !Found(p) ==> p in HiddenFiles(files);
    assert forall p :: p in files && Found(p) ==> p in FoundFiles(files);
  }

  lemma {:induction false} BelowIsTransitive(p: Path, e: Path, d: Path)
    requires Below(p, e) && Below(e, d)
    ensures Below(p, d)
  {
    assert p[..|d|] == p[..|e|][..|d|];
  }

  lemma {:induction false} VisitedAbove(d: Path, k: nat)
    requires Visited(d) && k <= |d|
    ensures Visited(d[..k])
  {
  }

  // What is needed below needs what is above.
  lemma {:induction false} NeededAbove(files: Files, dirs: set<Path>, e: Path, d: Path)
    requires e in dirs && Needed(files, dirs, e) && Below(e, d)
    ensures Needed(files, dirs, d)
  {
    hide Visited, Below;
    if Visited(d) && Visited(e) {
      if HasFileBelow(files, e) {
        var p :| p in files && Below(p, e);
        BelowIsTransitive(p, e, d);
      } else {
        var c :| c in dirs && !Visited(c) && Below(c, e);
        BelowIsTransitive(c, e, d);
      }
    }
  }

  lemma {:induction false} SkeletonIsWellFormed(t: Tree)
    requires WellFormed(t)
    ensures WellFormed(Tree(t.files, Skeleton(t.files, t.dirs)))
  {
    hide Visited, Needed;
    var bones := Skeleton(t.files, t.dirs);
    forall p, k | (p in t.files || p in bones) && 0 < k < |p| ensures p[..k] in bones {
      assert p[..k] in t.dirs && Below(p, p[..k]);
      if p in t.files {
        FileNeeds(t.files, t.dirs, p, p[..k]);
      } else {
        NeededAbove(t.files, t.dirs, p, p[..k]);
      }
    }
  }

  lemma {:induction false} FileNeeds(files: Files, dirs: set<Path>, p: Path, d: Path)
    requires p in files && Below(p, d)
    ensures Needed(files, dirs, d)
  {
    hide Visited, Below;
  }

  // ----- the order in which directories are removed -----

  // A directory comes after all those inside it.
  ghost predicate DeepestFirst(order: seq<Path>) {
    forall i, j :: 0 <= i < j < |order| ==> !Below(order[j], order[i])
  }

  // The directories the walk entered.
  ghost predicate RemovalOrder(order: seq<Path>, dirs: set<Path>) {
    && (forall d :: d in order <==> d in dirs && Visited(d))
    && DeepestFirst(order)
  }

  // The length of a path, in whatever unit its names are measured; the names
  // are separated by one.
  function PathLength(d: Path, length: string -> nat): nat {
    if d == [] then 0 else PathLength(d[..|d| - 1], length) + length(d[|d| - 1]) + 1
  }

  lemma {:induction false} LongerBelow(p: Path, d: Path, length: string -> nat)
    requires Below(p, d)
    ensures PathLength(p, length) > PathLength(d, length)
    decreases |p|
  {
    var up := p[..|p| - 1];
    if |d| < |up| {
      assert up[..|d|] == p[..|d|];
      LongerBelow(up, d, length);
    } else {
      assert up == d;
    }
  }

  // Sorting by falling length of the path, in bytes or in anything else, puts
  // them in such an order.
  lemma {:induction false} LongestFirstIsDeepestFirst(order: seq<Path>, length: string -> nat)
    requires forall i, j :: 0 <= i < j < |order| ==> PathLength(order[i], length) >= PathLength(order[j], length)
    ensures DeepestFirst(order)
  {
    hide Below;
    forall i, j | 0 <= i < j < |order| ensures !Below(order[j], order[i]) {
      if Below(order[j], order[i]) {
        LongerBelow(order[j], order[i], length);
      }
    }
  }
}
