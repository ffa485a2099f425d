// Filesystem checkpoints: copying a project's files away, and putting them
// back.
module Checkpoints {
  import opened CheckpointTree

  const MAX_FILES: nat := 5000
  const MAX_BYTES: nat := 209715200      // 200 MiB
  const MAX_FILE_SIZE: nat := 10485760   // 10 MiB

  datatype Warning = TooLarge(path: Path) | LimitReached

  // The files a walk over the project finds, each once, in the walk's order.
  ghost predicate IsWalk(walk: seq<Path>, files: Files) {
    && (forall p :: p in walk <==> p in files && Found(p))
    && (forall i, j :: 0 <= i < j < |walk| ==> walk[i] != walk[j])
  }

  predicate Small(files: Files, p: Path)
    requires p in files
  {
    |files[p]| <= MAX_FILE_SIZE
  }

  datatype Capture = Capture(stored: Files, fileCount: nat, byteCount: nat, warnings: seq<Warning>)

  ghost predicate AllIn(walk: seq<Path>, files: Files) {
    forall p :: p in walk ==> p in files
  }

  // What is stored after a walk over `walk`, none of which was too much.
  ghost predicate Holds(c: Capture, files: Files, walk: seq<Path>)
    requires AllIn(walk, files)
  {
    && (forall p :: p in c.stored <==> p in walk && Small(files, p))
    && (forall p :: p in c.stored ==> c.stored[p] == files[p])
    && c.fileCount == |c.stored| == SmallCount(files, walk) <= MAX_FILES
    && c.byteCount == SizeOf(files, walk) <= MAX_BYTES
    && (forall p :: TooLarge(p) in c.warnings <==> p in walk && !Small(files, p))
  }

  // The bytes of the walked files that are not too large.
  function SizeOf(files: Files, walk: seq<Path>): nat
    requires forall p :: p in walk ==> p in files
  {
    if walk == [] then 0
    else
      var last, before := walk[|walk| - 1], walk[..|walk| - 1];
      SizeOf(files, before) + if Small(files, last) then |files[last]| else 0
  }

  // How many of the walked files are not too large.
  function SmallCount(files: Files, walk: seq<Path>): (n: nat)
    requires forall p :: p in walk ==> p in files
    ensures n <= |walk|
  {
    if walk == [] then 0
    else
      var last, before := walk[|walk| - 1], walk[..|walk| - 1];
      SmallCount(files, before) + if Small(files, last) then 1 else 0
  }

  lemma {:induction false} SizesAre(files: Files, walk: seq<Path>, p: Path)
    requires p in files && forall q :: q in walk ==> q in files
    ensures SizeOf(files, []) == SmallCount(files, []) == 0
    ensures SizeOf(files, walk + [p]) == SizeOf(files, walk) + (if |files[p]| <= 10485760 then |files[p]| else 0)
    ensures SmallCount(files, walk + [p]) == SmallCount(files, walk) + (if |files[p]| <= 10485760 then 1 else 0)
  {
    assert (walk + [p])[..|walk|] == walk;
  }

  // A file that is neither too large nor one too many for what is stored.
  predicate Fits(c: Capture, files: Files, p: Path)
    requires p in files
  {
    c.fileCount < MAX_FILES && c.byteCount + |files[p]| <= MAX_BYTES
  }

  lemma {:induction false} SkipLarge(c: Capture, files: Files, walk: seq<Path>, p: Path)
    requires p in files && AllIn(walk, files) && Holds(c, files, walk) && !Small(files, p)
    ensures AllIn(walk + [p], files) && Holds(c.(warnings := c.warnings + [TooLarge(p)]), files, walk + [p])
  {
    assert (walk + [p])[..|walk|] == walk;
  }

  lemma {:induction false} TakeOne(c: Capture, files: Files, walk: seq<Path>, p: Path)
    requires p in files && p !in walk && AllIn(walk, files) && Holds(c, files, walk)
    requires Small(files, p) && Fits(c, files, p)
    ensures AllIn(walk + [p], files)
    ensures Holds(c.(stored := c.stored[p := files[p]], fileCount := c.fileCount + 1,
                     byteCount := c.byteCount + |files[p]|), files, walk + [p])
  {
    assert (walk + [p])[..|walk|] == walk;
  }

  class Project {
    var files: Files
    var dirs: set<Path>

    function View(): Tree
      reads this
    {
      Tree(files, dirs)
    }

    // The capture holds all that was walked before it stopped, and it stops
    // only at a file that does not fit.
    method CreateCheckpoint(walk: seq<Path>) returns (c: Capture, seen: nat)
      requires IsWalk(walk, files)
      ensures seen <= |walk| && AllIn(walk, files) && AllIn(walk[..seen], files)
      ensures LimitReached in c.warnings <==> seen < |walk|
      ensures Holds(c, files, walk[..seen])
      ensures seen < |walk| ==> Small(files, walk[seen]) && !Fits(c, files, walk[seen])
    {
      hide Holds, Found, Small;
      c := Capture(map[], 0, 0, []);
      var i := 0;
      NothingHeld(files, walk);
      while i < |walk|
        invariant 0 <= i <= |walk| && AllIn(walk, files) && AllIn(walk[..i], files)
        invariant Holds(c, files, walk[..i]) && LimitReached !in c.warnings
      {
        var rel := walk[i];
        var size := |files[rel]|;
        assert walk[..i + 1] == walk[..i] + [rel] && rel !in walk[..i];
        if size > MAX_FILE_SIZE {
          assert !Small(files, rel) by { SmallIs(files, rel); }
          SkipLarge(c, files, walk[..i], rel);
          c := c.(warnings := c.warnings + [TooLarge(rel)]);
          i := i + 1;
          continue;
        }
        assert Small(files, rel) by { SmallIs(files, rel); }
        if c.fileCount >= MAX_FILES || c.byteCount + size > MAX_BYTES {
          HoldsWarned(c, files, walk[..i]);
          c := c.(warnings := c.warnings + [LimitReached]);
          break;
        }
        TakeOne(c, files, walk[..i], rel);
        c := c.(stored := c.stored[rel := files[rel]], fileCount := c.fileCount + 1, byteCount := c.byteCount + size);
        i := i + 1;
      }
      seen := i;
    }

    // Files the capture does not hold go, except where the walk does not look;
    // then the held ones are copied back, and directories left empty go.
    method Restore(stored: Files, order: seq<Path>) returns (ok: bool)
      requires WellFormed(View()) && Storable(stored) && RemovalOrder(order, dirs)
      modifies this
      ensures ok <==> stored.Keys !! old(dirs)
      ensures HiddenFiles(files) == HiddenFiles(old(files))
      ensures ok ==> FoundFiles(files) == stored && WellFormed(View())
      ensures ok ==> dirs == Skeleton(files, old(dirs) + Parents(stored.Keys))
    {
      hide WellFormed, Storable, Found, Skeleton, RemovalOrder, Parents;
      ghost var before := View();
      RemoveOthers(stored);
      OthersRemoved(before, stored, files);
      var todo := stored.Keys;
      while todo != {}
        invariant todo <= stored.Keys
        invariant Copying(before, stored, todo, View())
        decreases todo
      {
        var rel :| rel in todo;
        ghost var was := View();
        var made := MakeParents(rel);
        NothingInTheWay(before, stored, todo, was, rel);
        if !made || rel in dirs {
          return false;
        }
        CopyOne(before, stored, todo, was, rel);
        files := files[rel := stored[rel]];
        todo := todo - {rel};
      }
      Copied(before, stored, View());
      ghost var copied := View();
      assert RemovalOrder(order, before.dirs);
      OrderCovers(before, stored, copied, order);
      RemoveEmptied(order);
      SkeletonIsWellFormed(copied);
      ok := true;
    }

    method RemoveOthers(stored: Files)
      modifies this`files
      ensures files == HiddenFiles(old(files)) + map p | p in old(files) && Found(p) && p in stored :: old(files)[p]
    {
      hide Found;
      var todo := files.Keys;
      while todo != {}
        invariant todo <= old(files).Keys
        invariant forall p :: p in files <==> p in old(files) && (p in todo || !Found(p) || p in stored)
        invariant forall p :: p in files ==> files[p] == old(files)[p]
        decreases todo
      {
        var p :| p in todo;
        todo := todo - {p};
        if Found(p) && p !in stored {
          files := files - {p};
        }
      }
    }

    // Fails where a file is in the way.
    method MakeParents(rel: Path) returns (ok: bool)
      modifies this`dirs
      ensures ok <==> forall k :: 0 < k < |rel| ==> rel[..k] !in files
      ensures ok ==> dirs == old(dirs) + ParentsOf(rel)
    {
      var k := 1;
      while k < |rel|
        invariant 1 <= k && (k <= |rel| || k == 1)
        invariant forall j :: 0 < j < k && j < |rel| ==> rel[..j] !in files
        invariant dirs == old(dirs) + set j | 0 < j < k && j < |rel| :: rel[..j]
      {
        if rel[..k] in files {
          return false;
        }
        dirs := dirs + {rel[..k]};
        k := k + 1;
      }
      return true;
    }

    // Removing a directory fails unless it is empty.
    method RemoveEmptied(order: seq<Path>)
      requires forall d :: d in order ==> d in dirs && Visited(d)
      requires forall d :: d in dirs && Visited(d) && d !in order ==> HasFileBelow(files, d)
      requires DeepestFirst(order)
      modifies this`dirs
      ensures dirs == Skeleton(files, old(dirs))
    {
      hide Visited, HasFileBelow, DeepestFirst, Below, Skeleton, Needed;
      ghost var all := dirs;
      for k := 0 to |order|
        invariant Removing(files, all, order, k, dirs)
      {
        RemoveStep(files, all, order, k, dirs);
        if IsEmpty(order[k]) {
          dirs := dirs - {order[k]};
        }
      }
      RemovedAll(files, all, order, dirs);
    }

    predicate IsEmpty(d: Path)
      reads this
    {
      Vacant(files, dirs, d)
    }
  }

  predicate Vacant(files: Files, dirs: set<Path>, d: Path) {
    (forall p :: p in files ==> !Below(p, d)) && (forall e :: e in dirs ==> !Below(e, d))
  }

  lemma {:induction false} NothingHeld(files: Files, walk: seq<Path>)
    requires IsWalk(walk, files)
    ensures AllIn(walk, files) && AllIn(walk[..0], files) && Holds(Capture(map[], 0, 0, []), files, walk[..0])
  {
  }

  lemma {:induction false} SmallIs(files: Files, p: Path)
    requires p in files
    ensures Small(files, p) <==> |files[p]| <= MAX_FILE_SIZE
  {
  }

  lemma {:induction false} HoldsWarned(c: Capture, files: Files, walk: seq<Path>)
    requires AllIn(walk, files) && Holds(c, files, walk)
    ensures Holds(c.(warnings := c.warnings + [LimitReached]), files, walk)
  {
  }

  // ----- copying back -----

  function ParentsOf(p: Path): set<Path> {
    set k | 0 < k < |p| :: p[..k]
  }

  function Parents(paths: set<Path>): set<Path> {
    set p, d | p in paths && d in ParentsOf(p) :: d
  }

  lemma {:induction false} ParentsAre(paths: set<Path>, d: Path)
    ensures d in Parents(paths) <==> d != [] && exists p :: p in paths && d < p
  {
    hide ParentsOf;
    forall p: Path ensures d in ParentsOf(p) <==> d != [] && d < p {
      ParentsOfIs(p, d);
    }
    if d in Parents(paths) {
      var p, e :| p in paths && e in ParentsOf(p) && e == d;
      assert d < p;
    }
    if p :| p in paths && d < p && d != [] {
      assert d in ParentsOf(p);
      assert d in set q, e | q in paths && e in ParentsOf(q) :: e;
    }
  }

  lemma {:induction false} ParentsOfIs(p: Path, d: Path)
    ensures d in ParentsOf(p) <==> d != [] && d < p
  {
    if d < p && d != [] {
      assert p[..|d|] == d;
    }
  }

  // All but `todo` of the stored files have been put back.
  ghost predicate Copying(before: Tree, stored: Files, todo: set<Path>, now: Tree) {
    && WellFormed(now)
    && HiddenFiles(now.files) == HiddenFiles(before.files)
    && (forall p :: p in now.files && Found(p) ==> p in stored)
    && (forall p :: p in stored && p !in todo ==> p in now.files && now.files[p] == stored[p])
    && now.dirs == before.dirs + Parents(stored.Keys - todo)
    && (stored.Keys - todo) !! before.dirs
  }

  lemma {:induction false} OthersRemoved(before: Tree, stored: Files, files: Files)
    requires WellFormed(before)
    requires files == HiddenFiles(before.files) + map p | p in before.files && Found(p) && p in stored :: before.files[p]
    ensures Copying(before, stored, stored.Keys, Tree(files, before.dirs))
  {
    hide Found;
    assert stored.Keys - stored.Keys == {};
  }

  lemma {:induction false} NothingInTheWay(before: Tree, stored: Files, todo: set<Path>, was: Tree, rel: Path)
    requires Storable(stored) && rel in stored && rel in todo && Copying(before, stored, todo, was)
    ensures forall k :: 0 < k < |rel| ==> rel[..k] !in was.files
    ensures rel in was.dirs + ParentsOf(rel) <==> rel in before.dirs
  {
    hide WellFormed, Visited, HiddenFiles;
    assert Found(rel);
    forall k | 0 < k < |rel| ensures rel[..k] !in was.files {
      assert Below(rel, rel[..k]);
      assert rel[..k][..k - 1] == rel[..|rel| - 1][..k - 1];
      VisitedAbove(rel[..|rel| - 1], k - 1);
      assert Found(rel[..k]);
    }
    forall p | p in stored.Keys - todo ensures rel !in ParentsOf(p) {
      assert !Below(p, rel);
    }
    assert rel !in ParentsOf(rel);
  }

  lemma {:induction false} CopyOne(before: Tree, stored: Files, todo: set<Path>, was: Tree, rel: Path)
    requires Storable(stored) && rel in stored && rel in todo && Copying(before, stored, todo, was)
    requires rel !in was.dirs + ParentsOf(rel)
    ensures Copying(before, stored, todo - {rel}, Tree(was.files[rel := stored[rel]], was.dirs + ParentsOf(rel)))
  {
    hide Visited, ParentsOf, Parents, WellFormed, Below;
    var now := Tree(was.files[rel := stored[rel]], was.dirs + ParentsOf(rel));
    NothingInTheWay(before, stored, todo, was, rel);
    assert Found(rel) && rel != [];
    PutIsWellFormed(was, rel, stored[rel]);
    SameHidden(was.files, rel, stored[rel]);
    assert stored.Keys - (todo - {rel}) == (stored.Keys - todo) + {rel};
    OneMoreParent(stored.Keys - todo, rel);
  }

  lemma {:induction false} SameHidden(files: Files, rel: Path, contents: Bytes)
    requires Found(rel)
    ensures HiddenFiles(files[rel := contents]) == HiddenFiles(files)
  {
    hide Visited;
  }

  lemma {:induction false} OneMoreParent(paths: set<Path>, p: Path)
    ensures Parents(paths + {p}) == Parents(paths) + ParentsOf(p)
  {
    hide ParentsOf;
    forall d | d in ParentsOf(p) ensures d in Parents(paths + {p}) {
      assert p in paths + {p};
    }
  }

  lemma {:induction false} PutIsWellFormed(was: Tree, rel: Path, contents: Bytes)
    requires WellFormed(was) && rel != [] && rel !in was.dirs + ParentsOf(rel)
    requires forall k :: 0 < k < |rel| ==> rel[..k] !in was.files
    ensures WellFormed(Tree(was.files[rel := contents], was.dirs + ParentsOf(rel)))
  {
    var now := Tree(was.files[rel := contents], was.dirs + ParentsOf(rel));
    forall p, k | (p in now.files || p in now.dirs) && 0 < k < |p| ensures p[..k] in now.dirs {
      if p in ParentsOf(rel) {
        assert p[..k] == rel[..k];
      }
    }
  }

  lemma {:induction false} Copied(before: Tree, stored: Files, now: Tree)
    requires Storable(stored) && Copying(before, stored, {}, now)
    ensures FoundFiles(now.files) == stored && WellFormed(now) && stored.Keys !! before.dirs
    ensures now.dirs == before.dirs + Parents(stored.Keys)
  {
    hide Found, WellFormed, Parents;
    assert stored.Keys - {} == stored.Keys;
  }

  lemma {:induction false} OrderCovers(before: Tree, stored: Files, now: Tree, order: seq<Path>)
    requires RemovalOrder(order, before.dirs) && now.dirs == before.dirs + Parents(stored.Keys)
    requires stored.Keys <= now.files.Keys
    ensures forall d :: d in order ==> d in now.dirs && Visited(d)
    ensures forall d :: d in now.dirs && Visited(d) && d !in order ==> HasFileBelow(now.files, d)
    ensures DeepestFirst(order)
  {
    hide Visited, DeepestFirst;
    forall d | d in now.dirs && Visited(d) && d !in order ensures HasFileBelow(now.files, d) {
      var p, e :| p in stored.Keys && e in ParentsOf(p) && e == d;
      assert p in now.files && Below(p, d);
    }
  }

  // ----- removing what is empty -----

  ghost predicate Removing(files: Files, all: set<Path>, order: seq<Path>, k: nat, dirs: set<Path>) {
    && k <= |order|
    && dirs <= all
    && (forall d :: d in all && d !in order[..k] ==> d in dirs)
    && (forall d :: d in order[..k] ==> (d in dirs <==> d in all && Needed(files, all, d)))
  }

  // A directory is vacant when its turn comes exactly if it is not needed.
  lemma {:induction false} RemoveStep(files: Files, all: set<Path>, order: seq<Path>, k: nat, dirs: set<Path>)
    requires Removing(files, all, order, k, dirs) && k < |order|
    requires forall d :: d in order ==> d in all && Visited(d)
    requires forall d :: d in all && Visited(d) && d !in order ==> HasFileBelow(files, d)
    requires DeepestFirst(order)
    ensures Removing(files, all, order, k + 1, if Vacant(files, dirs, order[k]) then dirs - {order[k]} else dirs)
  {
    hide Visited, HasFileBelow, DeepestFirst, Below, Needed, Vacant;
    var d := order[k];
    assert order[..k + 1] == order[..k] + [d];
    forall e | e in dirs && Below(e, d) ensures Needed(files, all, e) {
      NeededLater(files, all, order, k, dirs, e);
    }
    forall e | e in all && !Visited(e) ensures e in dirs {
      assert e !in order[..k];
    }
    VacantIsNotNeeded(files, all, dirs, d);
    if d in order[..k] && d !in dirs {
      assert dirs - {d} == dirs;
    }
  }

  lemma {:induction false} NeededLater(files: Files, all: set<Path>, order: seq<Path>, k: nat, dirs: set<Path>, e: Path)
    requires Removing(files, all, order, k, dirs) && k < |order| && e in dirs && Below(e, order[k])
    requires forall d :: d in all && Visited(d) && d !in order ==> HasFileBelow(files, d)
    requires DeepestFirst(order)
    ensures Needed(files, all, e)
  {
    hide Visited, HasFileBelow;
    if e in order {
      var j :| 0 <= j < |order| && order[j] == e;
      assert j < k;
      assert e in order[..k];
    }
  }

  lemma {:induction false} VacantIsNotNeeded(files: Files, all: set<Path>, dirs: set<Path>, d: Path)
    requires Visited(d) && dirs <= all
    requires forall e :: e in dirs && Below(e, d) ==> Needed(files, all, e)
    requires forall e :: e in all && !Visited(e) ==> e in dirs
    ensures Vacant(files, dirs, d) <==> !Needed(files, all, d)
  {
    hide Visited, Below;
    if !Needed(files, all, d) && !Vacant(files, dirs, d) {
      var e :| e in dirs && Below(e, d);
      NeededAbove(files, all, e, d);
    }
  }

  lemma {:induction false} RemovedAll(files: Files, all: set<Path>, order: seq<Path>, dirs: set<Path>)
    requires Removing(files, all, order, |order|, dirs)
    requires forall d :: d in all && Visited(d) && d !in order ==> HasFileBelow(files, d)
    ensures dirs == Skeleton(files, all)
  {
    hide Visited, HasFileBelow, HasSkippedBelow;
    assert order[..|order|] == order;
  }

  // ----- capture, edit, restore -----

  // The project can be captured whole: no file the walk finds is too large,
  // and together they are neither too many nor too much.
  ghost predicate Capturable(files: Files, walk: seq<Path>)
    requires AllIn(walk, files)
  {
    (forall p :: p in walk ==> Small(files, p)) && |walk| <= MAX_FILES && SizeOf(files, walk) <= MAX_BYTES
  }

  lemma {:induction false} CapturableIs(files: Files, walk: seq<Path>)
    requires AllIn(walk, files)
    ensures Capturable(files, walk) <==> (forall p :: p in walk ==> |files[p]| <= 10485760)
                                         && |walk| <= 5000 && SizeOf(files, walk) <= 209715200
  {
    hide SizeOf;
  }

  lemma {:induction false} SizeOfMore(files: Files, walk: seq<Path>, n: nat)
    requires AllIn(walk, files) && n <= |walk|
    ensures AllIn(walk[..n], files) && SizeOf(files, walk[..n]) <= SizeOf(files, walk)
    decreases |walk|
  {
    hide Small;
    if n < |walk| {
      SizeOfMore(files, walk[..|walk| - 1], n);
      assert walk[..|walk| - 1][..n] == walk[..n];
    } else {
      assert walk[..n] == walk;
    }
  }

  lemma {:induction false} AllSmallCount(files: Files, walk: seq<Path>)
    requires AllIn(walk, files) && forall p :: p in walk ==> Small(files, p)
    ensures SmallCount(files, walk) == |walk|
    decreases |walk|
  {
    hide Small;
    if walk != [] {
      AllSmallCount(files, walk[..|walk| - 1]);
    }
  }

  // A capture gives no warning if and only if the project could be captured
  // whole.
  lemma {:induction false} CleanIfCapturable(c: Capture, files: Files, walk: seq<Path>, seen: nat)
    requires IsWalk(walk, files) && seen <= |walk| && AllIn(walk, files)
    requires AllIn(walk[..seen], files) && Holds(c, files, walk[..seen])
    requires LimitReached in c.warnings <==> seen < |walk|
    requires seen < |walk| ==> Small(files, walk[seen]) && !Fits(c, files, walk[seen])
    ensures c.warnings == [] <==> Capturable(files, walk)
  {
    hide Found, Small, SizeOf, SmallCount;
    if c.warnings == [] {
      assert walk[..seen] == walk;
      forall p | p in walk ensures Small(files, p) {
        assert TooLarge(p) !in c.warnings;
      }
      AllSmallCount(files, walk);
    }
    if Capturable(files, walk) {
      EverythingFits(c, files, walk, seen);
      assert walk[..seen] == walk;
    }
    NoWarning(c.warnings);
  }

  lemma {:induction false} NoWarning(warnings: seq<Warning>)
    ensures warnings == [] <==> LimitReached !in warnings && forall p :: TooLarge(p) !in warnings
  {
    if warnings != [] {
      var w := warnings[0];
      assert w == LimitReached || w == TooLarge(w.path);
    }
  }

  lemma {:induction false} EverythingFits(c: Capture, files: Files, walk: seq<Path>, seen: nat)
    requires AllIn(walk, files) && Capturable(files, walk)
    requires seen <= |walk| && AllIn(walk[..seen], files) && Holds(c, files, walk[..seen])
    requires seen < |walk| ==> !Fits(c, files, walk[seen])
    ensures seen == |walk|
  {
    hide Small, SmallCount;
    if seen < |walk| {
      assert walk[..seen + 1][..seen] == walk[..seen] && walk[..seen + 1][seen] == walk[seen];
      assert Small(files, walk[seen]);
      SizeOfMore(files, walk, seen + 1);
    }
  }

  // It then holds everything the walk finds, and only then.
  lemma {:induction false} CleanCaptureIsWhole(c: Capture, files: Files, walk: seq<Path>, seen: nat)
    requires IsWalk(walk, files) && seen <= |walk| && AllIn(walk[..seen], files) && Holds(c, files, walk[..seen])
    requires LimitReached in c.warnings <==> seen < |walk|
    ensures c.warnings == [] <==> c.stored == FoundFiles(files)
    ensures c.stored.Keys <= FoundFiles(files).Keys
  {
    hide Found, Small, SizeOf, SmallCount;
    if c.warnings == [] {
      assert walk[..seen] == walk;
      forall p | p in FoundFiles(files) ensures p in c.stored {
        assert p in walk && TooLarge(p) !in c.warnings;
      }
      assert c.stored == FoundFiles(files);
    }
    forall w | w in c.warnings ensures c.stored.Keys != FoundFiles(files).Keys {
      match w
      case TooLarge(p) => assert p in FoundFiles(files) && !Small(files, p);
      case LimitReached =>
        assert walk[seen] !in walk[..seen];
        assert walk[seen] in FoundFiles(files);
    }
    assert c.warnings != [] ==> c.warnings[0] in c.warnings;
  }

  // Restoring gives back exactly the found files of the capture's time if and
  // only if they could all be captured: files left out are deleted.
  // Skipped directories stay as edited. It fails if and only if a captured path
  // has become a directory.
  method CheckpointEditRestore(project: Project, walk: seq<Path>, edited: Tree, order: seq<Path>)
    returns (c: Capture, ok: bool)
    requires WellFormed(project.View()) && IsWalk(walk, project.files)
    requires WellFormed(edited) && RemovalOrder(order, edited.dirs)
    modifies project
    ensures ok <==> c.stored.Keys !! edited.dirs
    ensures HiddenFiles(project.files) == HiddenFiles(edited.files)
    ensures ok ==> WellFormed(project.View())
    ensures AllIn(walk, old(project.files))
    ensures ok ==> (FoundFiles(project.files) == FoundFiles(old(project.files)) <==> Capturable(old(project.files), walk))
    ensures c.warnings == [] <==> Capturable(old(project.files), walk)
  {
    hide WellFormed, Holds, RemovalOrder, Found, Storable, IsWalk, Capturable, Small, Fits, AllIn;
    var seen: nat;
    c, seen := project.CreateCheckpoint(walk);
    CleanIfCapturable(c, project.files, walk, seen);
    CleanCaptureIsWhole(c, project.files, walk, seen);
    FoundIsStorable(project.View(), c.stored);
    project.files, project.dirs := edited.files, edited.dirs;
    assert project.View() == edited;
    ok := project.Restore(c.stored, order);
  }
}
