/**
 Which paths are under the roots, what zapSubtree leaves, and the agreement after mkdir and
 after rmdir of a directory that is not a root.
 */
module InotifyAgreement {
  import opened Wrappers
  import opened PathNames
  import opened InotifySpec
  import opened InotifyProofs

  // ----- roots and prefixes

  /** A path is under the roots if it is one, or if its parent is. */
  lemma {:induction false} UnderStep(roots: seq<Option<string>>, p: Path)
    requires |p| > 1
    ensures UnderRoots(roots, p) <==> p in RootPaths(roots) || UnderRoots(roots, Parent(p))
  {
    if UnderRoots(roots, p) {
      var i :| 0 <= i < |roots| && roots[i].Some? && Split(roots[i].value) <= p;
      assert RootPaths(roots)[i] == Split(roots[i].value);
      assert Split(roots[i].value) == p || Split(roots[i].value) <= Parent(p);
    }
    if UnderRoots(roots, Parent(p)) {
      var i :| 0 <= i < |roots| && roots[i].Some? && Split(roots[i].value) <= Parent(p);
      assert Split(roots[i].value) <= p;
    }
    if p in RootPaths(roots) {
      var i := RootAt(roots, p);
      assert Split(roots[i].value) <= p;
    }
  }

  lemma {:induction false} RootAt(roots: seq<Option<string>>, p: Path) returns (i: nat)
    requires p in RootPaths(roots) && |p| > 1
    ensures i < |roots| && roots[i].Some? && Split(roots[i].value) == p
  {
    i :| i < |roots| && RootPaths(roots)[i] == p;
  }

  /** The roots but the one at p. */
  function WithoutRoot(roots: seq<Option<string>>, p: Path): (r: seq<Option<string>>)
    ensures |r| == |roots|
    ensures forall i :: 0 <= i < |r| ==>
              r[i] == if roots[i].Some? && Split(roots[i].value) == p then None else roots[i]
  {
    seq(|roots|, i requires 0 <= i < |roots| =>
          if roots[i].Some? && Split(roots[i].value) == p then None else roots[i])
  }

  lemma {:induction false} NotARoot(roots: seq<Option<string>>, p: Path)
    requires p !in RootPaths(roots)
    ensures WithoutRoot(roots, p) == roots
  {
    forall i | 0 <= i < |roots| && roots[i].Some?
      ensures Split(roots[i].value) != p
    {
      assert RootPaths(roots)[i] == Split(roots[i].value);
    }
  }

  /** Outside p, the same paths are under roots when the root at p is gone. */
  lemma {:induction false} UnderOthers(roots: seq<Option<string>>, p: Path, x: Path)
    requires !(p <= x)
    ensures UnderRoots(WithoutRoot(roots, p), x) <==> UnderRoots(roots, x)
  {
    var r := WithoutRoot(roots, p);
    if UnderRoots(roots, x) {
      var i :| 0 <= i < |roots| && roots[i].Some? && Split(roots[i].value) <= x;
      assert r[i] == roots[i];
    }
  }

  lemma {:induction false} OtherRoots(roots: seq<Option<string>>, p: Path, x: Path)
    requires |x| > 1
    ensures x in RootPaths(WithoutRoot(roots, p)) ==> x in RootPaths(roots)
    ensures DistinctRoots(roots) ==> DistinctRoots(WithoutRoot(roots, p))
  {
    if x in RootPaths(WithoutRoot(roots, p)) {
      var i := RootAt(WithoutRoot(roots, p), x);
      assert RootPaths(roots)[i] == x;
    }
  }

  /** zapRootDirPath removes the root with the path string that the slot of p has. */
  lemma {:induction false} ZapsRoot(roots: seq<Option<string>>, p: Path, path: string)
    requires DistinctRoots(roots) && p in RootPaths(roots) && |p| > 1 && Split(path) == p
    ensures IsRoot(roots, path) && ZapRoot(roots, path) == WithoutRoot(roots, p)
  {
    var i := RootAt(roots, p);
    SplitInjective(roots[i].value, path);
    assert roots[i] == Some(path);
    var j := FindRoot(roots, path, 0);
    assert j <= i && j == i;
    forall x | 0 <= x < |roots| && x != i && roots[x].Some?
      ensures Split(roots[x].value) != p
    {
      if Split(roots[x].value) == p {
        SplitInjective(roots[x].value, path);
      }
    }
  }

  lemma {:induction false} RootIsWatched(s: St, p: Path)
    requires Agree(s) && p in RootPaths(s.roots) && |p| > 1 && p in s.k.dirs
    ensures forall x :: x in s.k.dirs && p <= x ==> Watching(s.k, x)
  {
    var i := RootAt(s.roots, p);
    assert forall x :: p <= x ==> UnderRoots(s.roots, x);
  }

  lemma {:induction false} Comparable(a: Path, b: Path, x: Path)
    requires a <= x && b <= x
    ensures a <= b || b <= a
  {
    assert a == x[..|a|] && b == x[..|b|];
    if |a| <= |b| {
      assert a == b[..|a|];
    } else {
      assert b == a[..|b|];
    }
  }

  /** A path above one in the tree is in the tree. */
  lemma {:induction false} PrefixIn(k: Kernel, r: Path, y: Path)
    requires KernelOk(k) && |r| >= 1 && r <= y && y in k.dirs
    ensures r in k.dirs
  {
    if r !in k.dirs {
      NothingUnder(k, r, y);
    }
  }

  // ----- transfer

  /** The cache stays in sync with a kernel that watches the same paths. */
  lemma {:induction false} SameWatches(slots: seq<Watch>, k: Kernel, k': Kernel)
    requires InSync(slots, k)
    requires forall p :: Watching(k', p) <==> Watching(k, p)
    requires forall p :: Watching(k, p) ==> WdOf(k', p) == WdOf(k, p)
    ensures InSync(slots, k')
  {
    forall j | LiveSlot(slots, j)
      ensures SlotOk(slots[j], k')
    {
      assert SlotOk(slots[j], k);
    }
    forall p | Watching(k', p)
      ensures HasSlot(slots, WdOf(k', p), p)
    {
      assert HasSlot(slots, WdOf(k, p), p);
    }
  }

  /** Emptying slot j once the kernel has dropped its watch. */
  lemma {:induction false} DropInSync(slots: seq<Watch>, k: Kernel, k': Kernel, j: nat)
    requires KernelOk(k) && InSync(slots, k) && LiveSlot(slots, j)
    requires forall p :: Watching(k', p) <==> Watching(k, p) && p != Split(slots[j].path)
    requires forall p :: Watching(k', p) ==> WdOf(k', p) == WdOf(k, p)
    ensures InSync(slots[j := EMPTY_SLOT], k')
  {
    var r := slots[j := EMPTY_SLOT];
    assert SlotOk(slots[j], k);
    forall i | LiveSlot(r, i)
      ensures SlotOk(r[i], k')
    {
      assert LiveSlot(slots, i) && r[i] == slots[i] && SlotOk(slots[i], k) && i != j;
      assert slots[i].wd != slots[j].wd;
    }
    forall p | Watching(k', p)
      ensures HasSlot(r, WdOf(k', p), p)
    {
      assert HasSlot(slots, WdOf(k, p), p);
      var i :| LiveSlot(slots, i) && slots[i].wd == WdOf(k, p) && Split(slots[i].path) == p;
      assert LiveSlot(r, i) && r[i] == slots[i];
    }
    forall i, i' | LiveSlot(r, i) && LiveSlot(r, i') && r[i].wd == r[i'].wd
      ensures i == i'
    {
      assert LiveSlot(slots, i) && LiveSlot(slots, i');
    }
  }

  // ----- zapSubtree

  lemma {:induction false} RmWatchDrops(slots: seq<Watch>, k: Kernel, j: nat)
    requires KernelOk(k) && InSync(slots, k) && LiveSlot(slots, j)
    ensures RmWatch(k, slots[j].wd).Some?
    ensures var k' := RmWatch(k, slots[j].wd).value;
            && k'.dirs == k.dirs && KernelOk(k')
            && InSync(slots[j := EMPTY_SLOT], k')
  {
    assert SlotOk(slots[j], k);
    var wd, p := slots[j].wd, Split(slots[j].path);
    assert k.wds[k.dirs[p]] == wd && wd in k.wds.Values;
    var k' := RmWatch(k, wd).value;
    forall x
      ensures Watching(k', x) <==> Watching(k, x) && x != p
    {
      if Watching(k, x) && k.wds[k.dirs[x]] == wd {
        assert k.dirs[x] == k.dirs[p];
      }
    }
    DropInSync(slots, k, k', j);
  }

  lemma {:induction false} ZapInSync(s: St, full: string, j: nat)
    requires KernelOk(s.k) && InSync(s.slots, s.k) && j <= |s.slots|
    ensures var r := ZapFrom(s, full, j);
            && r.count >= 0 && r.s.k.dirs == s.k.dirs && r.s.k.nextInode == s.k.nextInode
            && KernelOk(r.s.k) && InSync(r.s.slots, r.s.k)
    decreases |s.slots| - j
  {
    if j < |s.slots| {
      var w := s.slots[j];
      if w.wd >= 0 && IsUnder(full, w.path) {
        RmWatchDrops(s.slots, s.k, j);
        var s1 := s.(k := RmWatch(s.k, w.wd).value, slots := s.slots[j := EMPTY_SLOT]);
        ZapInSync(s1, full, j + 1);
        assert ZapFrom(s, full, j).s == ZapFrom(s1, full, j + 1).s;
      } else {
        ZapInSync(s, full, j + 1);
      }
    }
  }

  predicate Hit(w: Watch, full: string) {
    w.wd >= 0 && IsUnder(full, w.path)
  }

  /** The live slots under a path, from slot j on. */
  ghost function Hits(slots: seq<Watch>, full: string, j: nat): set<int> {
    set i | j <= i < |slots| && Hit(slots[i], full)
  }

  /** zapSubtree empties exactly the live slots under its path and leaves the others alone. */
  lemma {:induction false} ZapSlots(s: St, full: string, j: nat)
    requires j <= |s.slots| && ZapFrom(s, full, j).count >= 0
    ensures var r := ZapFrom(s, full, j).s.slots;
            forall i :: 0 <= i < |s.slots| ==> r[i] == if i in Hits(s.slots, full, j) then EMPTY_SLOT else s.slots[i]
    decreases |s.slots| - j
  {
    if j < |s.slots| {
      if Hit(s.slots[j], full) {
        ZapSlots(s.(k := RmWatch(s.k, s.slots[j].wd).value, slots := s.slots[j := EMPTY_SLOT]), full, j + 1);
      } else {
        ZapSlots(s, full, j + 1);
      }
    }
  }

  lemma {:induction false} HitsStep(slots: seq<Watch>, full: string, j: nat)
    requires j < |slots|
    ensures Hit(slots[j], full) ==> |Hits(slots[j := EMPTY_SLOT], full, j + 1)| == |Hits(slots, full, j)| - 1
    ensures !Hit(slots[j], full) ==> Hits(slots, full, j + 1) == Hits(slots, full, j)
  {
    if Hit(slots[j], full) {
      assert Hits(slots[j := EMPTY_SLOT], full, j + 1) == Hits(slots, full, j) - {j};
    }
  }

  /** When no inotify_rm_watch call fails, its result is the number of slots it empties. */
  lemma {:induction false} ZapCounts(s: St, full: string, j: nat)
    requires j <= |s.slots| && ZapFrom(s, full, j).count >= 0
    ensures ZapFrom(s, full, j).count == |Hits(s.slots, full, j)|
    decreases |s.slots| - j
  {
    if j == |s.slots| {
      assert Hits(s.slots, full, j) == {};
    } else if Hit(s.slots[j], full) {
      var slots := s.slots[j := EMPTY_SLOT];
      ZapCounts(s.(k := RmWatch(s.k, s.slots[j].wd).value, slots := slots), full, j + 1);
      HitsStep(s.slots, full, j);
    } else {
      ZapCounts(s, full, j + 1);
      HitsStep(s.slots, full, j);
    }
  }

  /** zapSubtree stops watching exactly the directories under its path, by components. */
  lemma {:induction false} ZapWatches(s: St, full: string)
    requires KernelOk(s.k) && InSync(s.slots, s.k)
    ensures var r := ZapFrom(s, full, 0);
            && r.count >= 0 && r.s.k.dirs == s.k.dirs && r.s.k.nextInode == s.k.nextInode
            && KernelOk(r.s.k) && InSync(r.s.slots, r.s.k)
            && (forall p :: Watching(r.s.k, p) <==> Watching(s.k, p) && !(Split(full) <= p))
            && (forall p :: Watching(r.s.k, p) ==> WdOf(r.s.k, p) == WdOf(s.k, p))
  {
    ZapInSync(s, full, 0);
    ZapSlots(s, full, 0);
    var r := ZapFrom(s, full, 0).s;
    forall p
      ensures Watching(r.k, p) ==> Watching(s.k, p) && !(Split(full) <= p) && WdOf(r.k, p) == WdOf(s.k, p)
      ensures Watching(s.k, p) && !(Split(full) <= p) ==> Watching(r.k, p)
    {
      if Watching(r.k, p) {
        assert HasSlot(r.slots, WdOf(r.k, p), p);
        var i :| LiveSlot(r.slots, i) && r.slots[i].wd == WdOf(r.k, p) && Split(r.slots[i].path) == p;
        assert LiveSlot(s.slots, i) && SlotOk(s.slots[i], s.k);
        UnderIsPrefix(full, s.slots[i].path);
      }
      if Watching(s.k, p) && !(Split(full) <= p) {
        assert HasSlot(s.slots, WdOf(s.k, p), p);
        var i :| LiveSlot(s.slots, i) && s.slots[i].wd == WdOf(s.k, p) && Split(s.slots[i].path) == p;
        UnderIsPrefix(full, s.slots[i].path);
        assert LiveSlot(r.slots, i) && SlotOk(r.slots[i], r.k);
      }
    }
  }

  /** The directories do not matter to zapSubtree. */
  lemma {:induction false} ZapDirs(s: St, full: string, j: nat, dirs: map<Path, Inode>, self: set<Inode>, cookie: nat)
    requires j <= |s.slots|
    ensures var a := ZapFrom(s, full, j);
            var b := ZapFrom(s.(k := s.k.(dirs := dirs, selfMoves := self, nextCookie := cookie)), full, j);
            && b.s == a.s.(k := a.s.k.(dirs := dirs, selfMoves := self, nextCookie := cookie))
            && b.count == a.count && b.sent == a.sent
    decreases |s.slots| - j
  {
    if j < |s.slots| {
      var w := s.slots[j];
      if w.wd >= 0 && IsUnder(full, w.path) {
        if w.wd in s.k.wds.Values {
          var s1 := s.(k := RmWatch(s.k, w.wd).value, slots := s.slots[j := EMPTY_SLOT]);
          ZapDirs(s1, full, j + 1, dirs, self, cookie);
        }
      } else {
        ZapDirs(s, full, j + 1, dirs, self, cookie);
      }
    }
  }

  // ----- draining

  /** The stream is processed, the roots are kept, and the cache agrees with the tree of k
      exactly if agrees. */
  ghost predicate Settled(f: Final, s: St, k: Kernel, agrees: bool) {
    !f.exited && f.s.roots == s.roots && f.s.k.dirs == k.dirs && (Agree(f.s) <==> agrees) && (agrees ==> Good(f.s))
  }

  lemma {:induction false} DrainIgnored(walk: Walk, s: St, q: seq<Event>)
    requires forall e :: e in q ==> e.mask == {IGNORED}
    ensures Drain(walk, s, q) == Final(s, false)
    decreases |q|
  {
    if q != [] {
      assert ProcessNext(walk, s, q, false) == Consumed(s, 1, []);
      DrainStep(walk, s, q, s, 1, [], q[1..]);
      DrainIgnored(walk, s, q[1..]);
    }
  }

  lemma {:induction false} ZapSendsIgnored(s: St, full: string, j: nat)
    requires j <= |s.slots|
    ensures forall e :: e in ZapFrom(s, full, j).sent ==> e.mask == {IGNORED}
    decreases |s.slots| - j
  {
    if j < |s.slots| {
      var w := s.slots[j];
      if w.wd >= 0 && IsUnder(full, w.path) {
        if w.wd in s.k.wds.Values {
          ZapSendsIgnored(s.(k := RmWatch(s.k, w.wd).value, slots := s.slots[j := EMPTY_SLOT]), full, j + 1);
        }
      } else {
        ZapSendsIgnored(s, full, j + 1);
      }
    }
  }

  // ----- mkdir

  ghost predicate Arrival(ev: Event) {
    ISDIR in ev.mask && IGNORED !in ev.mask && (CREATE in ev.mask || MOVED_TO in ev.mask)
  }

  /** An arrival in a watched directory makes the program watch the subtree at its path. */
  lemma {:induction false} ArrivalWatches(walk: Walk, s: St, k0: Kernel, p: Path, ev: Event)
    requires KernelOk(k0) && InSync(s.slots, k0) && InSync(s.slots, s.k)
    requires |p| > 1 && NoSlash(Last(p)) && Watching(k0, Parent(p)) && !Watching(s.k, p)
    requires ev.wd == WdOf(k0, Parent(p)) && ev.name == Last(p) && Arrival(ev)
    ensures exists full :: Split(full) == p &&
                           ProcessNext(walk, s, [ev], false) == Consumed(WatchSubtree(walk, s, full), 1, [])
  {
    FindsPath(s.slots, k0, Parent(p));
    var slot := FindWatch(s.slots, ev.wd);
    var full := Child(s.slots[slot].path, ev.name);
    SplitChild(s.slots[slot].path, ev.name);
    assert Split(full) == p;
    CachedIffWatched(s.slots, s.k, full);
    assert ev.wd >= 0;
  }

  /** A directory appears as Last(p) in a watched one: its whole subtree gets watched. */
  lemma {:induction false} Appears(walk: Walk, s: St, k0: Kernel, p: Path, ev: Event)
    requires Walks(walk) && KernelOk(s.k) && InSync(s.slots, s.k) && KernelOk(k0) && InSync(s.slots, k0)
    requires |p| > 1 && NoSlash(Last(p)) && Watching(k0, Parent(p)) && !Watching(s.k, p)
    requires ev.wd == WdOf(k0, Parent(p)) && ev.name == Last(p) && Arrival(ev)
    ensures var f := Drain(walk, s, [ev]);
            && !f.exited && f.s.roots == s.roots && f.s.k.dirs == s.k.dirs
            && KernelOk(f.s.k) && InSync(f.s.slots, f.s.k)
            && (forall x :: x in s.k.dirs ==> (Watching(f.s.k, x) <==> Watching(s.k, x) || p <= x))
            && (forall x :: x in s.k.dirs && !(p <= x) ==> SameMask(s, f.s.k, x))
  {
    ArrivalWatches(walk, s, k0, p, ev);
    var full :| Split(full) == p && ProcessNext(walk, s, [ev], false) == Consumed(WatchSubtree(walk, s, full), 1, []);
    WatchSubtreeInSync(walk, s, full);
    TraverseMasks(s, walk(s.k.dirs, Split(full)));
    DrainStep(walk, s, [ev], WatchSubtree(walk, s, full), 1, [], []);
    DrainEmpty(walk, WatchSubtree(walk, s, full));
  }

  lemma {:induction false} MkdirKernel(k: Kernel, p: Path)
    requires KernelOk(k) && CanMkdir(k, p)
    ensures KernelOk(DoMkdir(k, p).0)
    ensures forall x :: Watching(DoMkdir(k, p).0, x) <==> Watching(k, x)
  {
    assert ValidPath(Parent(p)) && p == Parent(p) + [Last(p)];
    var k' := DoMkdir(k, p).0;
    forall x | x in k'.dirs && |x| > 1
      ensures Parent(x) in k'.dirs
    {
    }
  }

  /** Everything under a path that the tree does not have is outside the tree. */
  lemma {:induction false} AllAbsent(k: Kernel, p: Path)
    requires KernelOk(k) && |p| >= 1 && p !in k.dirs
    ensures forall x :: x in k.dirs ==> !(p <= x)
  {
    forall x | x in k.dirs
      ensures !(p <= x)
    {
      NothingUnder(k, p, x);
    }
  }

  /** After mkdir and its events: the new directory is watched exactly if its parent is. */
  ghost predicate Made(f: Final, s: St, k: Kernel, p: Path) {
    && !f.exited && f.s.roots == s.roots && f.s.k.dirs == k.dirs && k.dirs.Keys == s.k.dirs.Keys + {p}
    && KernelOk(f.s.k) && InSync(f.s.slots, f.s.k)
    && (Watching(f.s.k, p) <==> Watching(s.k, Parent(p)))
    && forall x :: x in s.k.dirs ==>
         (Watching(f.s.k, x) <==> Watching(s.k, x)) && (Flagged(f.s.k, x) <==> Flagged(s.k, x))
  }

  lemma {:induction false} MkdirInside(walk: Walk, s: St, p: Path, k: Kernel, q: seq<Event>)
    requires Walks(walk) && Agree(s) && CanMkdir(s.k, p) && (k, q) == DoMkdir(s.k, p)
    requires KernelOk(k) && InSync(s.slots, k) && Watching(s.k, Parent(p))
    requires forall x :: Watching(k, x) <==> Watching(s.k, x)
    ensures Made(Drain(walk, s.(k := k), q), s, k, p)
  {
    AllAbsent(s.k, p);
    Appears(walk, s.(k := k), s.k, p, q[0]);
    assert forall x :: x in s.k.dirs ==> !(p <= x) && k.dirs[x] == s.k.dirs[x];
  }

  lemma {:induction false} MkdirMakes(walk: Walk, s: St, p: Path, k: Kernel, q: seq<Event>)
    requires Walks(walk) && Agree(s) && CanMkdir(s.k, p) && (k, q) == DoMkdir(s.k, p)
    ensures Made(Drain(walk, s.(k := k), q), s, k, p)
  {
    MkdirKernel(s.k, p);
    SameWatches(s.slots, s.k, k);
    if Watching(s.k, Parent(p)) {
      MkdirInside(walk, s, p, k, q);
    } else {
      DrainEmpty(walk, s.(k := k));
    }
  }

  /** The cache agrees after mkdir, but for a directory made at the place of a root that is gone,
      where its parent is not watched. */
  lemma {:induction false} MkdirExactly(walk: Walk, s: St, p: Path, k: Kernel, q: seq<Event>)
    requires Walks(walk) && Good(s) && CanMkdir(s.k, p) && (k, q) == DoMkdir(s.k, p)
    ensures Settled(Drain(walk, s.(k := k), q), s, k, p in RootPaths(s.roots) ==> Watching(s.k, Parent(p)))
  {
    MkdirMakes(walk, s, p, k, q);
    UnderStep(s.roots, p);
    MadeFlagged(s, Drain(walk, s.(k := k), q), k, p);
  }

  lemma {:induction false} MadeFlagged(s: St, f: Final, k: Kernel, p: Path)
    requires TopFlagged(s) && KernelOk(s.k) && CanMkdir(s.k, p) && Made(f, s, k, p)
    ensures TopFlagged(f.s)
  {
    forall x | |x| > 1 && x in RootPaths(f.s.roots) && Watching(f.s.k, x) && !Watching(f.s.k, Parent(x))
      ensures Flagged(f.s.k, x)
    {
      if x != p {
        assert Parent(x) in s.k.dirs;
      }
    }
  }

  // ----- rmdir

  lemma {:induction false} RmdirKernel(k: Kernel, p: Path)
    requires KernelOk(k) && CanRmdir(k, p)
    ensures var k' := DoRmdir(k, p).0;
            && KernelOk(k') && (forall x :: Watching(k', x) <==> Watching(k, x) && x != p)
            && (forall x :: Watching(k', x) ==> WdOf(k', x) == WdOf(k, x))
  {
  }

  lemma {:induction false} RmdirDrain(walk: Walk, s: St, k: Kernel, p: Path)
    requires KernelOk(s.k) && InSync(s.slots, s.k) && Watching(s.k, p) && p !in RootPaths(s.roots)
    requires forall x :: Watching(k, x) <==> Watching(s.k, x) && x != p
    requires forall x :: Watching(k, x) ==> WdOf(k, x) == WdOf(s.k, x)
    ensures var wd := WdOf(s.k, p);
            var f := Drain(walk, s.(k := k), [Event(wd, {ISDIR, DELETE_SELF}, 0, ""), IgnoredEvent(wd)]);
            !f.exited && f.s.roots == s.roots && f.s.k == k && InSync(f.s.slots, k)
  {
    FindsPath(s.slots, s.k, p);
    var j := FindWatch(s.slots, WdOf(s.k, p));
    DropInSync(s.slots, s.k, k, j);
    NoRootAt(s.roots, p, s.slots[j].path);
    GoneProcessed(walk, s.(k := k), WdOf(s.k, p), j);
  }

  lemma {:induction false} NoRootAt(roots: seq<Option<string>>, p: Path, path: string)
    requires p !in RootPaths(roots) && Split(path) == p
    ensures !IsRoot(roots, path)
  {
    forall i | 0 <= i < |roots|
      ensures roots[i] != Some(path)
    {
      assert RootPaths(roots)[i] in RootPaths(roots);
    }
  }

  /** The directory is gone: its slot is emptied. */
  lemma {:induction false} GoneProcessed(walk: Walk, s: St, wd: int, j: nat)
    requires wd >= 0 && j == FindWatch(s.slots, wd) && j < |s.slots| && !IsRoot(s.roots, s.slots[j].path)
    ensures Drain(walk, s, [Event(wd, {ISDIR, DELETE_SELF}, 0, ""), IgnoredEvent(wd)]) ==
            Final(s.(slots := s.slots[j := EMPTY_SLOT]), false)
  {
    var q := [Event(wd, {ISDIR, DELETE_SELF}, 0, ""), IgnoredEvent(wd)];
    var s1 := s.(slots := s.slots[j := EMPTY_SLOT]);
    assert ProcessNext(walk, s, q, false) == Consumed(s1, 1, []);
    DrainStep(walk, s, q, s1, 1, [], [IgnoredEvent(wd)]);
    DrainIgnored(walk, s1, [IgnoredEvent(wd)]);
  }

  /** Without p, and without the root at p if it was one, the cache still agrees. */
  lemma {:induction false} RemovedGood(s: St, k: Kernel, p: Path, slots: seq<Watch>)
    requires Good(s) && CanRmdir(s.k, p) && k == DoRmdir(s.k, p).0 && InSync(slots, k)
    ensures Good(St(slots, WithoutRoot(s.roots, p), k))
  {
    RmdirKernel(s.k, p);
    var roots := WithoutRoot(s.roots, p);
    forall x | x in k.dirs
      ensures Watching(k, x) <==> UnderRoots(roots, x)
    {
      UnderOthers(s.roots, p, x);
    }
    OtherRoots(s.roots, p, p);
    forall x | |x| > 1 && x in RootPaths(roots) && Watching(k, x) && !Watching(k, Parent(x))
      ensures Flagged(k, x)
    {
      OtherRoots(s.roots, p, x);
      assert Parent(x) != p;
    }
  }

  lemma {:induction false} RmdirAgrees(walk: Walk, s: St, p: Path, k: Kernel, q: seq<Event>)
    requires Good(s) && CanRmdir(s.k, p) && p !in RootPaths(s.roots) && (k, q) == DoRmdir(s.k, p)
    ensures Settled(Drain(walk, s.(k := k), q), s, k, true)
  {
    RmdirKernel(s.k, p);
    if Watching(s.k, p) {
      RmdirDrain(walk, s, k, p);
    } else {
      SameWatches(s.slots, s.k, k);
      DrainEmpty(walk, s.(k := k));
    }
    NotARoot(s.roots, p);
    RemovedGood(s, k, p, Drain(walk, s.(k := k), q).s.slots);
  }
}
