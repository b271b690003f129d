/**
 The roots themselves, and other directories whose watch asks for IN_MOVE_SELF: a root that is
 removed, or renamed and not below another one, is no longer monitored. A root that is below
 another one and is renamed stays in the list, where no directory may be; the cache still
 agrees, but its watch goes on asking for IN_MOVE_SELF, and the list can mislead the program
 when a directory comes to lie there again.
 */
module InotifyRoots {
  import opened Wrappers
  import opened PathNames
  import opened InotifySpec
  import opened InotifyProofs
  import opened InotifyAgreement
  import opened InotifyRenames
  import opened InotifyMoves

  /** The stream is processed; the program exits if it has lost its last root, and otherwise the
      cache agrees with the tree of k exactly if agrees. */
  ghost predicate Ends(f: Final, s: St, k: Kernel, roots: seq<Option<string>>, agrees: bool) {
    && f.s.roots == roots
    && (f.exited <==> roots != s.roots && NoRoots(roots))
    && (!f.exited ==> f.s.k.dirs == k.dirs && (Agree(f.s) <==> agrees) && (agrees ==> Good(f.s)))
  }

  lemma {:induction false} RootLost(roots: seq<Option<string>>, p: Path)
    requires p in RootPaths(roots) && |p| > 1
    ensures WithoutRoot(roots, p) != roots
  {
    var i := RootAt(roots, p);
    assert WithoutRoot(roots, p)[i] != roots[i];
  }

  // ----- rmdir of a root

  lemma {:induction false} RootRemoved(walk: Walk, s: St, k: Kernel, wd: int, j: nat)
    requires wd >= 0 && j == FindWatch(s.slots, wd) && j < |s.slots| && IsRoot(s.roots, s.slots[j].path)
    ensures var roots := ZapRoot(s.roots, s.slots[j].path);
            Drain(walk, s.(k := k), [Event(wd, {ISDIR, DELETE_SELF}, 0, ""), IgnoredEvent(wd)]) ==
            if NoRoots(roots) then Final(s.(k := k, roots := roots), true)
            else Final(s.(k := k, roots := roots, slots := s.slots[j := EMPTY_SLOT]), false)
  {
    var q := [Event(wd, {ISDIR, DELETE_SELF}, 0, ""), IgnoredEvent(wd)];
    var roots := ZapRoot(s.roots, s.slots[j].path);
    if NoRoots(roots) {
      DrainEnds(walk, s.(k := k), q, Exited(s.(k := k, roots := roots)));
    } else {
      var s1 := s.(k := k, roots := roots, slots := s.slots[j := EMPTY_SLOT]);
      DrainStep(walk, s.(k := k), q, s1, 1, [], [IgnoredEvent(wd)]);
      DrainIgnored(walk, s1, [IgnoredEvent(wd)]);
    }
  }

  lemma {:induction false} RmdirRootAgrees(walk: Walk, s: St, p: Path, k: Kernel, evs: seq<Event>)
    requires Good(s) && CanRmdir(s.k, p) && p in RootPaths(s.roots) && (k, evs) == DoRmdir(s.k, p)
    ensures Ends(Drain(walk, s.(k := k), evs), s, k, WithoutRoot(s.roots, p), true)
  {
    RootIsWatched(s, p);
    FindsPath(s.slots, s.k, p);
    var wd := WdOf(s.k, p);
    var j := FindWatch(s.slots, wd);
    RmdirKernel(s.k, p);
    DropInSync(s.slots, s.k, k, j);
    ZapsRoot(s.roots, p, s.slots[j].path);
    RootRemoved(walk, s, k, wd, j);
    RemovedGood(s, k, p, s.slots[j := EMPTY_SLOT]);
    RootLost(s.roots, p);
  }

  // ----- IN_MOVE_SELF

  ghost predicate SelfFor(k: Kernel, p: Path, self: Event) {
    Watching(k, p) && self == Event(WdOf(k, p), {MOVE_SELF}, 0, "")
  }

  /** For a root: it is dropped, and its subtree is zapped. */
  lemma {:induction false} RootMoved(walk: Walk, s: St, self: Event, j: nat)
    requires self.mask == {MOVE_SELF} && self.wd >= 0 && j == FindWatch(s.slots, self.wd) && j < |s.slots|
    requires IsRoot(s.roots, s.slots[j].path)
    requires var s1 := s.(roots := ZapRoot(s.roots, s.slots[j].path)); ZapFrom(s1, s.slots[j].path, 0).count >= 0
    ensures var s1 := s.(roots := ZapRoot(s.roots, s.slots[j].path));
            Drain(walk, s, [self]) ==
            if NoRoots(s1.roots) then Final(s1, true) else Final(ZapFrom(s1, s.slots[j].path, 0).s, false)
  {
    var q := [self];
    var s1 := s.(roots := ZapRoot(s.roots, s.slots[j].path));
    if NoRoots(s1.roots) {
      DrainEnds(walk, s, q, Exited(s1));
    } else {
      var z := ZapFrom(s1, s.slots[j].path, 0);
      ZapSendsIgnored(s1, s.slots[j].path, 0);
      assert q[1..] + z.sent == z.sent;
      DrainStep(walk, s, q, z.s, 1, z.sent, z.sent);
      DrainIgnored(walk, z.s, z.sent);
    }
  }

  /** For any other directory: nothing. */
  lemma {:induction false} OtherMoved(walk: Walk, s: St, self: Event, j: nat)
    requires self.mask == {MOVE_SELF} && self.wd >= 0 && j == FindWatch(s.slots, self.wd) && j < |s.slots|
    requires !IsRoot(s.roots, s.slots[j].path)
    ensures Drain(walk, s, [self]) == Final(s, false)
  {
    assert ProcessNext(walk, s, [self], false) == Consumed(s, 1, []);
    DrainStep(walk, s, [self], s, 1, [], []);
    DrainEmpty(walk, s);
  }

  /** For a watch that is gone: the cache is rebuilt. */
  lemma {:induction false} UnknownMoved(walk: Walk, s: St, self: Event, more: seq<Event>)
    requires self.mask == {MOVE_SELF} && self.wd >= 0 && FindWatch(s.slots, self.wd) == -1
    ensures Drain(walk, s, [self] + more) == Final(Reinitialize(walk, s), false)
  {
    DrainEnds(walk, s, [self] + more, Rebuilt(Reinitialize(walk, s)));
  }

  // ----- within the trees: the slot has its new path by the time IN_MOVE_SELF is processed

  /** The new path is not a root's. */
  lemma {:induction false} SelfAtNewPlace(walk: Walk, s: St, k: Kernel, p: Path, q: Path, s1: St, self: Event)
    requires Step(s, k, p, q) && s1.k == k && InSync(s1.slots, k) && SelfFor(s.k, p, self)
    requires q !in RootPaths(s1.roots)
    ensures Drain(walk, s1, [self]) == Final(s1, false)
  {
    assert Moved(p, p, q) == q && WdOf(k, q) == self.wd;
    FindsPath(s1.slots, k, q);
    var j := FindWatch(s1.slots, self.wd);
    NoRootAt(s1.roots, q, s1.slots[j].path);
    OtherMoved(walk, s1, self, j);
  }

  /** It is the path of a root that was gone: the directory is taken for that root, which was moved. */
  lemma {:induction false} SelfAtRoot(walk: Walk, s: St, k: Kernel, p: Path, q: Path, s1: St, self: Event)
    requires Step(s, k, p, q) && s1.k == k && InSync(s1.slots, k) && SelfFor(s.k, p, self)
    requires q in RootPaths(s1.roots) && DistinctRoots(s1.roots) && UnderRoots(s1.roots, Parent(q))
    ensures var f := Drain(walk, s1, [self]);
            && !f.exited && f.s.roots == WithoutRoot(s1.roots, q) && f.s.k.dirs == k.dirs && !Agree(f.s)
  {
    assert Moved(p, p, q) == q && WdOf(k, q) == self.wd;
    FindsPath(s1.slots, k, q);
    var j := FindWatch(s1.slots, self.wd);
    var path := s1.slots[j].path;
    ZapsRoot(s1.roots, q, path);
    var s2 := s1.(roots := WithoutRoot(s1.roots, q));
    ZapWatches(s2, path);
    RootMoved(walk, s1, self, j);
    RootStaysAbove(s1.roots, q);
  }

  lemma {:induction false} RootStaysAbove(roots: seq<Option<string>>, q: Path)
    requires |q| > 1 && UnderRoots(roots, Parent(q))
    ensures !NoRoots(WithoutRoot(roots, q)) && UnderRoots(WithoutRoot(roots, q), q)
  {
    UnderOthers(roots, q, Parent(q));
    UnderStep(WithoutRoot(roots, q), q);
  }

  lemma {:induction false} WithinThenSelf(walk: Walk, s: St, k: Kernel, p: Path, q: Path, from: Event, to: Event,
          self: Event)
    requires KernelOk(s.k) && InSync(s.slots, s.k) && Step(s, k, p, q) && SelfFor(s.k, p, self)
    requires FromFor(s.k, p, from) && ToFor(s.k, q, to) && from.cookie == to.cookie && q !in RootPaths(s.roots)
    ensures var f := Drain(walk, s.(k := k), [from, to, self]); !f.exited && f.s.k == k && f.s.roots == s.roots
  {
    var s1 := RenameWithin(walk, s, k, p, q, from, to, [self]);
    assert [from, to] + [self] == [from, to, self];
    SelfAtNewPlace(walk, s, k, p, q, s1, self);
  }

  lemma {:induction false} FlaggedWithin(walk: Walk, s: St, k: Kernel, p: Path, q: Path, from: Event, to: Event,
          self: Event)
    requires Good(s) && Step(s, k, p, q) && FromFor(s.k, p, from) && ToFor(s.k, q, to) && from.cookie == to.cookie
    requires SelfFor(s.k, p, self)
    ensures Ends(Drain(walk, s.(k := k), [from, to, self]), s, k, WithoutRoot(s.roots, q), q !in RootPaths(s.roots))
  {
    var s1 := RenameWithin(walk, s, k, p, q, from, to, [self]);
    assert [from, to] + [self] == [from, to, self];
    if q in RootPaths(s.roots) {
      SelfAtRoot(walk, s, k, p, q, s1, self);
      RootStaysAbove(s.roots, q);
    } else {
      SelfAtNewPlace(walk, s, k, p, q, s1, self);
      NotARoot(s.roots, q);
      WithinMoves(s, k, p, q, s1);
      MovesExactly(s, k, p, q, s1, true);
    }
  }

  // ----- out of the trees: the slot is gone by then

  lemma {:induction false} SlotGone(s: St, k: Kernel, p: Path, full: string)
    requires KernelOk(s.k) && InSync(s.slots, s.k) && Watching(s.k, p) && Split(full) == p
    requires ZapFrom(s.(k := k), full, 0).count >= 0
    ensures FindWatch(ZapFrom(s.(k := k), full, 0).s.slots, WdOf(s.k, p)) == -1
  {
    var wd, r := WdOf(s.k, p), ZapFrom(s.(k := k), full, 0).s.slots;
    ZapSlots(s.(k := k), full, 0);
    forall i | 0 <= i < |r|
      ensures r[i].wd != wd
    {
      if s.slots[i].wd == wd {
        assert LiveSlot(s.slots, i) && SlotOk(s.slots[i], s.k);
        assert s.k.dirs[Split(s.slots[i].path)] == s.k.dirs[p];
        UnderIsPrefix(full, s.slots[i].path);
        assert i in Hits(s.slots, full, 0);
      }
    }
  }

  lemma {:induction false} UnpairedZaps(walk: Walk, s: St, buf: seq<Event>, i: nat)
    requires |buf| >= 2 && buf[0].mask == {ISDIR, MOVED_FROM} && !IsPair(buf[0], buf[1])
    requires i == FindWatch(s.slots, buf[0].wd) && i < |s.slots| && s.slots[i].wd >= 0
    requires ZapFrom(s, Child(s.slots[i].path, buf[0].name), 0).count >= 0
    ensures var z := ZapFrom(s, Child(s.slots[i].path, buf[0].name), 0);
            ProcessNext(walk, s, buf, false) == Consumed(z.s, 1, z.sent)
  {
    var z := ZapFrom(s, Child(s.slots[i].path, buf[0].name), 0);
    assert ProcessMovedFrom(walk, s, i, buf, false) == Consumed(z.s, 1, z.sent);
  }

  lemma {:induction false} FlaggedOut(walk: Walk, s: St, k: Kernel, p: Path, q: Path, from: Event, self: Event)
    requires Walks(walk) && Good(s) && Step(s, k, p, q) && FromFor(s.k, p, from) && SelfFor(s.k, p, self)
    ensures Ends(Drain(walk, s.(k := k), [from, self]), s, k, s.roots, true)
  {
    var i, full := FindsChild(s.slots, s.k, p);
    ZapsTree(s, k, p, q, full);
    var z := ZapFrom(s.(k := k), full, 0);
    UnpairedZaps(walk, s.(k := k), [from, self], i);
    DrainStep(walk, s.(k := k), [from, self], z.s, 1, z.sent, [self] + z.sent);
    SlotGone(s, k, p, full);
    UnknownMoved(walk, z.s, self, z.sent);
    ReinitializeAgrees(walk, z.s);
  }

  // ----- a root that is not below another one

  /** Walking what is all watched and cached already changes the masks only. */
  lemma {:induction false} NothingToWalk(s: St, ps: seq<Path>)
    requires forall p :: p in ps ==> Watching(s.k, p) && FindWatch(s.slots, WdOf(s.k, p)) >= 0
    ensures var r := TraverseAll(s, ps); r == s.(k := s.k.(selfMoves := r.k.selfMoves))
    decreases |ps|
  {
    if ps != [] {
      assert ps[0] in ps;
      var s1 := TraverseTree(s, ps[0]);
      assert s1 == s.(k := s.k.(selfMoves := s1.k.selfMoves));
      assert forall p :: p in ps[1..] ==> p in ps && WdOf(s1.k, p) == WdOf(s.k, p);
      NothingToWalk(s1, ps[1..]);
    }
  }

  /** The watches of a root's tree have moved along with it. */
  lemma {:induction false} TreeCarried(s: St, k: Kernel, p: Path, q: Path)
    requires Agree(s) && p in RootPaths(s.roots) && Step(s, k, p, q)
    ensures forall y :: y in k.dirs && q <= y ==> Watching(k, y) && FindWatch(s.slots, WdOf(k, y)) >= 0
  {
    RootIsWatched(s, p);
    forall y | y in k.dirs && q <= y
      ensures Watching(k, y) && FindWatch(s.slots, WdOf(k, y)) >= 0
    {
      var x := Moved(y, q, p);
      assert Moved(x, p, q) == y && k.dirs[y] == s.k.dirs[x] && p <= x;
      FindsPath(s.slots, s.k, x);
    }
  }

  lemma {:induction false} ArrivalProcessed(walk: Walk, s: St, ev: Event, more: seq<Event>, slot: nat, full: string)
    requires slot == FindWatch(s.slots, ev.wd) && ev.wd >= 0 && slot < |s.slots| && Arrival(ev)
    requires full == Child(s.slots[slot].path, ev.name) && !PathInCache(s.slots, full)
    ensures Drain(walk, s, [ev] + more) == Drain(walk, WatchSubtree(walk, s, full), more)
  {
    assert ([ev] + more)[1..] + [] == more;
    DrainStep(walk, s, [ev] + more, WatchSubtree(walk, s, full), 1, [], more);
  }

  /** The kernel after the walk that an arrival brings about: the same, but for masks in the tree. */
  ghost predicate Remasked(k: Kernel, k': Kernel, q: Path) {
    && k' == k.(selfMoves := k'.selfMoves)
    && forall x :: x in k.dirs && !(q <= x) ==> (k.dirs[x] in k'.selfMoves <==> k.dirs[x] in k.selfMoves)
  }

  /** The event that the root has arrived in a watched directory adds nothing. */
  lemma {:induction false} ArrivalIdle(walk: Walk, s: St, k: Kernel, q: Path, to: Event, more: seq<Event>)
    returns (k': Kernel)
    requires Walks(walk) && KernelOk(s.k) && InSync(s.slots, s.k) && KernelOk(k) && ToFor(s.k, q, to)
    requires q !in s.k.dirs
    requires forall y :: y in k.dirs && q <= y ==> Watching(k, y) && FindWatch(s.slots, WdOf(k, y)) >= 0
    ensures Remasked(k, k', q) && Drain(walk, s.(k := k), [to] + more) == Drain(walk, s.(k := k'), more)
  {
    var slot, full := FindsChild(s.slots, s.k, q);
    CachedIffWatched(s.slots, s.k, full);
    var ps := walk(k.dirs, q);
    NothingToWalk(s.(k := k), ps);
    TraverseMasks(s.(k := k), ps);
    k' := TraverseAll(s.(k := k), ps).k;
    forall x | x in k.dirs && !(q <= x)
      ensures k.dirs[x] in k'.selfMoves <==> k.dirs[x] in k.selfMoves
    {
      assert SameMask(s.(k := k), k', x);
    }
    ArrivalProcessed(walk, s.(k := k), to, more, slot, full);
  }

  /** Wherever the root went, nothing of its tree is watched once IN_MOVE_SELF is processed. */
  ghost predicate Dropped(f: Final, s: St, k: Kernel, p: Path, q: Path) {
    && f.s.roots == WithoutRoot(s.roots, p)
    && (f.exited <==> NoRoots(f.s.roots))
    && (!f.exited ==> Moves(s, k, p, q, f.s, false))
  }

  lemma {:induction false} MoveSelfDrops(walk: Walk, s: St, k: Kernel, k': Kernel, p: Path, q: Path, self: Event)
    requires Agree(s) && Step(s, k, p, q) && p in RootPaths(s.roots) && DistinctRoots(s.roots)
    requires Remasked(k, k', q) && SelfFor(s.k, p, self)
    ensures Dropped(Drain(walk, s.(k := k'), [self]), s, k, p, q)
  {
    FindsPath(s.slots, s.k, p);
    var j := FindWatch(s.slots, self.wd);
    var path := s.slots[j].path;
    ZapsRoot(s.roots, p, path);
    ZapsTree(s.(roots := ZapRoot(s.roots, path)), k', p, q, path);
    RootMoved(walk, s.(k := k'), self, j);
    var z := ZapFrom(s.(k := k', roots := ZapRoot(s.roots, path)), path, 0).s;
    ZappedMoves(s, k, k', p, q, z);
  }

  lemma {:induction false} ZappedMoves(s: St, k: Kernel, k': Kernel, p: Path, q: Path, z: St)
    requires Step(s, k, p, q) && Remasked(k, k', q)
    requires z.k.dirs == k.dirs && z.k.selfMoves == k'.selfMoves && KernelOk(z.k) && InSync(z.slots, z.k)
    requires forall x :: Watching(z.k, x) <==> Watching(s.k, x) && !(p <= x)
    ensures Moves(s, k, p, q, z, false)
  {
    Outside(s, k, p, q);
    MasksOutside(s, k, p, q, z.k);
    assert forall y :: y in k.dirs && q <= y ==> !Watching(s.k, y);
  }

  lemma {:induction false} RenameRootDrops(walk: Walk, s: St, k: Kernel, p: Path, q: Path, to: Event, self: Event)
    requires Walks(walk) && Agree(s) && Step(s, k, p, q) && p in RootPaths(s.roots) && DistinctRoots(s.roots)
    requires SelfFor(s.k, p, self) && (Watching(s.k, Parent(q)) ==> ToFor(s.k, q, to))
    ensures var evs := if Watching(s.k, Parent(q)) then [to, self] else [self];
            Dropped(Drain(walk, s.(k := k), evs), s, k, p, q)
  {
    if Watching(s.k, Parent(q)) {
      TreeCarried(s, k, p, q);
      var k' := ArrivalIdle(walk, s, k, q, to, [self]);
      assert [to] + [self] == [to, self];
      MoveSelfDrops(walk, s, k, k', p, q, self);
    } else {
      MoveSelfDrops(walk, s, k, k, p, q, self);
    }
  }

  /** p is a root, and not below another one. */
  ghost predicate TopRoot(s: St, p: Path) {
    p in RootPaths(s.roots) && |p| > 1 && !Watching(s.k, Parent(p))
  }

  lemma {:induction false} TopRootAgrees(walk: Walk, s: St, k: Kernel, p: Path, q: Path, to: Event, self: Event)
    requires Walks(walk) && Good(s) && Step(s, k, p, q) && TopRoot(s, p)
    requires SelfFor(s.k, p, self) && (Watching(s.k, Parent(q)) ==> ToFor(s.k, q, to))
    ensures var evs := if Watching(s.k, Parent(q)) then [to, self] else [self];
            Ends(Drain(walk, s.(k := k), evs), s, k, WithoutRoot(s.roots, p),
                 !Watching(s.k, Parent(q)) && !Revives(s.roots, s.k, p, q))
  {
    RenameRootDrops(walk, s, k, p, q, to, self);
    RootLost(s.roots, p);
    var f := Drain(walk, s.(k := k), if Watching(s.k, Parent(q)) then [to, self] else [self]);
    if !f.exited {
      MovesExactly(s, k, p, q, f.s, false);
    }
  }

  /** A watched directory whose parent is not watched is a root. */
  lemma {:induction false} TopIsRoot(s: St, p: Path)
    requires Covers(s) && |p| > 1 && Watching(s.k, p) && Parent(p) in s.k.dirs && !Watching(s.k, Parent(p))
    ensures p in RootPaths(s.roots)
  {
    UnderStep(s.roots, p);
  }

  // ----- every rename that IN_MOVE_SELF tells of

  /** The roots after a rename. */
  ghost function RootsAfterMove(s: St, p: Path, q: Path): seq<Option<string>>
    requires |p| > 1 && |q| > 1
  {
    if !Watching(s.k, Parent(p)) then WithoutRoot(s.roots, p)
    else if Watching(s.k, Parent(q)) && Flagged(s.k, p) then WithoutRoot(s.roots, q)
    else s.roots
  }

  ghost predicate LoudlyHarmless(s: St, p: Path, q: Path)
    requires |p| > 1 && |q| > 1
  {
    var from, to := Watching(s.k, Parent(p)), Watching(s.k, Parent(q));
    if from then to ==> q !in RootPaths(s.roots) else !to && !Revives(s.roots, s.k, p, q)
  }

  lemma {:induction false} FlaggedAgrees(walk: Walk, s: St, k: Kernel, p: Path, q: Path, evs: seq<Event>, from: Event,
          to: Event, self: Event)
    requires Walks(walk) && Good(s) && Step(s, k, p, q) && Flagged(s.k, p) && SelfFor(s.k, p, self)
    requires EventsFor(s.k, p, q, from, to, evs)
    ensures Ends(Drain(walk, s.(k := k), evs + [self]), s, k, RootsAfterMove(s, p, q), LoudlyHarmless(s, p, q))
  {
    if Watching(s.k, Parent(p)) {
      if Watching(s.k, Parent(q)) {
        assert evs + [self] == [from, to, self];
        FlaggedWithin(walk, s, k, p, q, from, to, self);
      } else {
        assert evs + [self] == [from, self];
        FlaggedOut(walk, s, k, p, q, from, self);
      }
    } else {
      TopIsRoot(s, p);
      assert evs + [self] == if Watching(s.k, Parent(q)) then [to, self] else [self];
      TopRootAgrees(walk, s, k, p, q, to, self);
    }
  }
}
