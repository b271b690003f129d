/**
 When the cache agrees with the directory trees: the live slots are exactly the kernel's
 (watch descriptor, path) pairs, and exactly the directories under the roots are watched. A
 cache that is built from the roots agrees.
 */
module InotifyProofs {
  import opened Wrappers
  import opened PathNames
  import opened InotifySpec

  // ----- the invariant

  ghost predicate LiveSlot(slots: seq<Watch>, j: int) {
    0 <= j < |slots| && slots[j].wd >= 0
  }

  ghost predicate HasSlot(slots: seq<Watch>, wd: int, p: Path) {
    exists j :: LiveSlot(slots, j) && slots[j].wd == wd && Split(slots[j].path) == p
  }

  ghost predicate SlotOk(w: Watch, k: Kernel) {
    Watching(k, Split(w.path)) && WdOf(k, Split(w.path)) == w.wd
  }

  ghost predicate Distinct(slots: seq<Watch>) {
    forall i, j :: LiveSlot(slots, i) && LiveSlot(slots, j) && slots[i].wd == slots[j].wd ==> i == j
  }

  /** The live slots are the kernel's (wd, path) pairs. Slots that are not live have wd -1. */
  ghost predicate InSync(slots: seq<Watch>, k: Kernel) {
    && (forall j :: 0 <= j < |slots| ==> slots[j].wd >= -1)
    && (forall j {:trigger SlotOk(slots[j], k)} :: LiveSlot(slots, j) ==> SlotOk(slots[j], k))
    && (forall p {:trigger HasSlot(slots, WdOf(k, p), p)} :: Watching(k, p) ==> HasSlot(slots, WdOf(k, p), p))
    && Distinct(slots)
  }

  ghost predicate UnderRoots(roots: seq<Option<string>>, p: Path) {
    exists i :: 0 <= i < |roots| && roots[i].Some? && Split(roots[i].value) <= p
  }

  /** Exactly the directories under the roots are watched. */
  ghost predicate Covers(s: St) {
    forall p :: p in s.k.dirs ==> (Watching(s.k, p) <==> UnderRoots(s.roots, p))
  }

  /** What the program is for: the live slots are exactly the kernel's (wd, path) pairs, and
      exactly the directories under the roots are watched. A root need not exist. */
  ghost predicate Agree(s: St) {
    KernelOk(s.k) && InSync(s.slots, s.k) && Covers(s)
  }

  /** No two roots still monitored are the same. */
  ghost predicate DistinctRoots(roots: seq<Option<string>>) {
    forall i, j :: 0 <= i < j < |roots| && roots[i].Some? ==> roots[i] != roots[j]
  }

  /** The watch of a root that is not below another one asks for IN_MOVE_SELF. */
  ghost predicate TopFlagged(s: St) {
    forall x :: |x| > 1 && x in RootPaths(s.roots) && Watching(s.k, x) && !Watching(s.k, Parent(x)) ==> Flagged(s.k, x)
  }

  /** What all operations keep as long as the cache agrees. */
  ghost predicate Good(s: St) {
    Agree(s) && TopFlagged(s) && DistinctRoots(s.roots)
  }

  function RootPaths(roots: seq<Option<string>>): (r: seq<Path>)
    ensures |r| == |roots|
    ensures forall i :: 0 <= i < |r| ==> r[i] == Split(roots[i].GetOr(""))
  {
    seq(|roots|, i requires 0 <= i < |roots| => Split(roots[i].GetOr("")))
  }

  /** The cache and the kernel's watches as sets of pairs. */
  ghost function CachePairs(slots: seq<Watch>): set<(int, Path)> {
    set j | 0 <= j < |slots| && LiveSlot(slots, j) :: (slots[j].wd, Split(slots[j].path))
  }

  ghost function KernelPairs(k: Kernel): set<(int, Path)> {
    set p | p in k.dirs && Watching(k, p) :: (WdOf(k, p), p)
  }

  lemma {:induction false} SamePairs(slots: seq<Watch>, k: Kernel)
    requires InSync(slots, k)
    ensures CachePairs(slots) == KernelPairs(k)
  {
    forall x | x in CachePairs(slots)
      ensures x in KernelPairs(k)
    {
      var j :| LiveSlot(slots, j) && x == (slots[j].wd, Split(slots[j].path));
      assert SlotOk(slots[j], k);
    }
    forall x | x in KernelPairs(k)
      ensures x in CachePairs(slots)
    {
      assert HasSlot(slots, x.0, x.1);
    }
  }

  // ----- looking up and adding

  /** A watched directory's descriptor leads to a slot with its path. */
  lemma {:induction false} FindsPath(slots: seq<Watch>, k: Kernel, p: Path)
    requires KernelOk(k) && InSync(slots, k) && Watching(k, p)
    ensures var j := FindWatch(slots, WdOf(k, p)); LiveSlot(slots, j) && Split(slots[j].path) == p
  {
    var wd := WdOf(k, p);
    assert HasSlot(slots, wd, p);
    var i :| LiveSlot(slots, i) && slots[i].wd == wd && Split(slots[i].path) == p;
    var j := FindWatch(slots, wd);
    assert LiveSlot(slots, j);
  }

  lemma {:induction false} CachedIffWatched(slots: seq<Watch>, k: Kernel, path: string)
    requires InSync(slots, k)
    ensures PathInCache(slots, path) <==> Watching(k, Split(path))
  {
    if PathInCache(slots, path) {
      var j :| 0 <= j < |slots| && slots[j].wd >= 0 && slots[j].path == path;
      assert LiveSlot(slots, j) && SlotOk(slots[j], k);
    }
    if Watching(k, Split(path)) {
      assert HasSlot(slots, WdOf(k, Split(path)), Split(path));
      var j :| LiveSlot(slots, j) && Split(slots[j].path) == Split(path);
      SplitInjective(slots[j].path, path);
    }
  }

  lemma {:induction false} AddAt(slots: seq<Watch>, wd: int, path: string) returns (j: nat)
    requires wd >= 0 && forall i :: 0 <= i < |slots| ==> slots[i].wd >= -1
    ensures var r := AddToCache(slots, wd, path);
            && j < |r| && r[j] == Watch(wd, path) && !LiveSlot(slots, j)
            && (forall i :: 0 <= i < |r| ==> r[i].wd >= -1)
            && (forall i :: LiveSlot(r, i) && i != j ==> LiveSlot(slots, i) && r[i] == slots[i])
            && (forall i :: LiveSlot(slots, i) ==> i != j && LiveSlot(r, i) && r[i] == slots[i])
  {
    j := if FindWatch(slots, -1) >= 0 then FindWatch(slots, -1) else |slots|;
  }

  /** The kernel with a new watch on inode i, whatever its mask. */
  ghost predicate NewWatch(k: Kernel, k': Kernel, i: Inode) {
    k' == k.(wds := k.wds[i := k.nextWd], nextWd := k.nextWd + 1, selfMoves := k'.selfMoves)
  }

  lemma {:induction false} AddInSync(slots: seq<Watch>, k: Kernel, k': Kernel, p: Path)
    requires KernelOk(k) && InSync(slots, k) && p in k.dirs && !Watching(k, p) && NewWatch(k, k', k.dirs[p])
    ensures InSync(AddToCache(slots, k.nextWd, Join(p)), k')
  {
    var wd := k.nextWd;
    var r := AddToCache(slots, wd, Join(p));
    SplitJoin(p);
    var at := AddAt(slots, wd, Join(p));
    forall j | LiveSlot(slots, j)
      ensures slots[j].wd < wd && SlotOk(slots[j], k')
    {
      assert SlotOk(slots[j], k);
    }
    forall x | Watching(k', x)
      ensures HasSlot(r, WdOf(k', x), x)
    {
      if x == p {
        assert LiveSlot(r, at);
      } else {
        assert Watching(k, x) && HasSlot(slots, WdOf(k, x), x);
        var j :| LiveSlot(slots, j) && slots[j].wd == WdOf(k, x) && Split(slots[j].path) == x;
        assert LiveSlot(r, j) && r[j] == slots[j];
      }
    }
    forall j | LiveSlot(r, j)
      ensures SlotOk(r[j], k')
    {
    }
  }

  /** The masks of the watches do not matter to the cache. */
  lemma {:induction false} SameButFlags(slots: seq<Watch>, k: Kernel, k': Kernel)
    requires KernelOk(k) && InSync(slots, k) && k' == k.(selfMoves := k'.selfMoves)
    ensures KernelOk(k') && InSync(slots, k')
  {
    forall j | LiveSlot(slots, j)
      ensures SlotOk(slots[j], k')
    {
      assert SlotOk(slots[j], k);
    }
    forall p | Watching(k', p)
      ensures HasSlot(slots, WdOf(k', p), p)
    {
      assert HasSlot(slots, WdOf(k, p), p);
    }
  }

  lemma {:induction false} TraverseInSync(s: St, p: Path)
    requires KernelOk(s.k) && InSync(s.slots, s.k) && p in s.k.dirs
    ensures var r := TraverseTree(s, p);
            && KernelOk(r.k) && InSync(r.slots, r.k)
            && r.k.wds.Keys == s.k.wds.Keys + {s.k.dirs[p]}
  {
    var k' := TraverseTree(s, p).k;
    if Watching(s.k, p) {
      FindsPath(s.slots, s.k, p);
      SameButFlags(s.slots, s.k, k');
    } else {
      AddInSync(s.slots, s.k, k', p);
      forall j | 0 <= j < |s.slots|
        ensures s.slots[j].wd != s.k.nextWd
      {
        assert LiveSlot(s.slots, j) ==> SlotOk(s.slots[j], s.k);
      }
    }
  }

  lemma {:induction false} TraverseAllInSync(s: St, ps: seq<Path>)
    requires KernelOk(s.k) && InSync(s.slots, s.k) && forall p :: p in ps ==> p in s.k.dirs
    ensures var r := TraverseAll(s, ps);
            && KernelOk(r.k) && InSync(r.slots, r.k)
            && forall p :: p in s.k.dirs ==> (Watching(r.k, p) <==> Watching(s.k, p) || p in ps)
    decreases |ps|
  {
    if ps != [] {
      TraverseInSync(s, ps[0]);
      var s1 := TraverseTree(s, ps[0]);
      assert forall p :: p in ps <==> p == ps[0] || p in ps[1..];
      TraverseAllInSync(s1, ps[1..]);
    }
  }

  /** watchSubtree adds exactly the directories under a path. */
  lemma {:induction false} WatchSubtreeInSync(walk: Walk, s: St, path: string)
    requires Walks(walk) && KernelOk(s.k) && InSync(s.slots, s.k)
    ensures var r := WatchSubtree(walk, s, path);
            && KernelOk(r.k) && InSync(r.slots, r.k)
            && forall p :: p in s.k.dirs ==> (Watching(r.k, p) <==> Watching(s.k, p) || Split(path) <= p)
  {
    TraverseAllInSync(s, walk(s.k.dirs, Split(path)));
  }

  lemma {:induction false} WatchRootsInSync(walk: Walk, s: St, j: nat)
    requires Walks(walk) && KernelOk(s.k) && InSync(s.slots, s.k) && j <= |s.roots|
    ensures var r := WatchRoots(walk, s, j);
            && KernelOk(r.k) && InSync(r.slots, r.k)
            && forall p :: p in s.k.dirs ==> (Watching(r.k, p) <==> Watching(s.k, p) || UnderRoots(s.roots[j..], p))
    decreases |s.roots| - j
  {
    var r := WatchRoots(walk, s, j);
    if j < |s.roots| {
      var s1 := if s.roots[j].Some? then WatchSubtree(walk, s, s.roots[j].value) else s;
      if s.roots[j].Some? {
        WatchSubtreeInSync(walk, s, s.roots[j].value);
      }
      WatchRootsInSync(walk, s1, j + 1);
      forall p
        ensures UnderRoots(s.roots[j..], p) <==>
                (s.roots[j].Some? && Split(s.roots[j].value) <= p) || UnderRoots(s.roots[j + 1..], p)
      {
        UnderRootsCons(s.roots, j, p);
      }
    }
  }

  lemma {:induction false} UnderRootsCons(roots: seq<Option<string>>, j: nat, p: Path)
    requires j < |roots|
    ensures UnderRoots(roots[j..], p) <==>
            (roots[j].Some? && Split(roots[j].value) <= p) || UnderRoots(roots[j + 1..], p)
  {
    var a, b := roots[j..], roots[j + 1..];
    assert a[0] == roots[j] && forall i :: 0 <= i < |b| ==> b[i] == a[i + 1];
    if UnderRoots(a, p) {
      var i :| 0 <= i < |a| && a[i].Some? && Split(a[i].value) <= p;
      if i > 0 {
        assert b[i - 1] == a[i];
      }
    }
    if UnderRoots(b, p) {
      var i :| 0 <= i < |b| && b[i].Some? && Split(b[i].value) <= p;
      assert a[i + 1] == b[i];
    }
  }

  // ----- which watches ask for IN_MOVE_SELF

  lemma {:induction false} RootPath(roots: seq<Option<string>>, x: Path)
    requires ValidPath(x) && |x| > 1
    ensures IsRoot(roots, Join(x)) <==> x in RootPaths(roots)
  {
    SplitJoin(x);
    if IsRoot(roots, Join(x)) {
      var i :| 0 <= i < |roots| && roots[i] == Some(Join(x));
      assert RootPaths(roots)[i] == x;
    }
    if x in RootPaths(roots) {
      var i :| 0 <= i < |roots| && RootPaths(roots)[i] == x;
      JoinSplit(roots[i].GetOr(""));
      assert roots[i] == Some(Join(x));
    }
  }

  ghost predicate Masked(s: St, k: Kernel, x: Path) {
    x in s.k.dirs && |x| >= 1 && (s.k.dirs[x] in k.selfMoves <==> IsRoot(s.roots, Join(x)))
  }

  ghost predicate SameMask(s: St, k: Kernel, x: Path) {
    x in s.k.dirs && (s.k.dirs[x] in k.selfMoves <==> s.k.dirs[x] in s.k.selfMoves)
  }

  /** The walk asks for IN_MOVE_SELF exactly at the paths of roots. */
  lemma {:induction false} TraverseMasks(s: St, ps: seq<Path>)
    requires KernelOk(s.k)
    ensures var k := TraverseAll(s, ps).k;
            forall x :: x in s.k.dirs ==> if x in ps then Masked(s, k, x) else SameMask(s, k, x)
    decreases |ps|
  {
    if ps != [] {
      var s1 := TraverseTree(s, ps[0]);
      assert forall x :: x in ps <==> x == ps[0] || x in ps[1..];
      TraverseMask(s, ps[0]);
      TraverseMasks(s1, ps[1..]);
    }
  }

  lemma {:induction false} TraverseMask(s: St, p: Path)
    requires KernelOk(s.k)
    ensures var r := TraverseTree(s, p);
            && KernelOk(r.k) && forall x :: x in s.k.dirs ==> if x == p then Masked(s, r.k, x) else SameMask(s, r.k, x)
  {
  }

  lemma {:induction false} RootsMasked(walk: Walk, s: St, j: nat)
    requires Walks(walk) && KernelOk(s.k) && j <= |s.roots|
    ensures var k := WatchRoots(walk, s, j).k;
            forall x :: x in s.k.dirs ==> if UnderRoots(s.roots[j..], x) then Masked(s, k, x) else SameMask(s, k, x)
    decreases |s.roots| - j
  {
    if j < |s.roots| {
      var s1 := if s.roots[j].Some? then WatchSubtree(walk, s, s.roots[j].value) else s;
      if s.roots[j].Some? {
        TraverseMasks(s, walk(s.k.dirs, Split(s.roots[j].value)));
        TraverseKernel(s, walk(s.k.dirs, Split(s.roots[j].value)));
      }
      RootsMasked(walk, s1, j + 1);
      forall x
        ensures UnderRoots(s.roots[j..], x) <==>
                (s.roots[j].Some? && Split(s.roots[j].value) <= x) || UnderRoots(s.roots[j + 1..], x)
      {
        UnderRootsCons(s.roots, j, x);
      }
    }
  }

  lemma {:induction false} TraverseKernel(s: St, ps: seq<Path>)
    requires KernelOk(s.k)
    ensures KernelOk(TraverseAll(s, ps).k)
    decreases |ps|
  {
    if ps != [] {
      TraverseMask(s, ps[0]);
      TraverseKernel(TraverseTree(s, ps[0]), ps[1..]);
    }
  }

  /** Whatever the cache holds, rebuilding it restores the agreement. */
  lemma {:induction false} ReinitializeAgrees(walk: Walk, s: St)
    requires Walks(walk) && KernelOk(s.k)
    ensures Agree(Reinitialize(walk, s)) && TopFlagged(Reinitialize(walk, s))
    ensures var r := Reinitialize(walk, s);
            forall x :: |x| > 1 && x in RootPaths(r.roots) && Watching(r.k, x) ==> Flagged(r.k, x)
  {
    var s0 := s.(slots := [], k := s.k.(wds := map[], selfMoves := {}, nextWd := 1));
    var r := Reinitialize(walk, s);
    WatchRootsInSync(walk, s0, 0);
    RootsMasked(walk, s0, 0);
    assert s.roots[0..] == s.roots;
    forall x | |x| > 1 && x in RootPaths(r.roots) && Watching(r.k, x)
      ensures Flagged(r.k, x)
    {
      RootPath(r.roots, x);
      assert Masked(s0, r.k, x);
    }
  }
}
