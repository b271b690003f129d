/**
 A directory renamed onto an empty one, which the system call replaces. The events of the rename
 are processed while the old directory still has its slot: the program takes an arrival for a
 path that it has cached already, and empties the slot only then.
 */
module InotifyReplace {
  import opened Wrappers
  import opened PathNames
  import opened InotifySpec
  import opened InotifyProofs
  import opened InotifyAgreement
  import opened InotifyRenames
  import opened InotifyMoves
  import opened InotifyRoots

  // ----- the state as if the old directory had been removed first

  /** The slot of the old directory. */
  function OldSlot(s: St, q: Path): int
    requires Watching(s.k, q)
  {
    FindWatch(s.slots, WdOf(s.k, q))
  }

  ghost function Freed(s: St, q: Path): St
    requires CanRmdir(s.k, q)
  {
    var slots := if Watching(s.k, q) && OldSlot(s, q) >= 0 then s.slots[OldSlot(s, q) := EMPTY_SLOT] else s.slots;
    St(slots, WithoutRoot(s.roots, q), DoRmdir(s.k, q).0)
  }

  lemma {:induction false} FreedGood(s: St, q: Path)
    requires Good(s) && CanRmdir(s.k, q)
    ensures Good(Freed(s, q))
    ensures Watching(s.k, q) ==> LiveSlot(s.slots, OldSlot(s, q)) && Split(s.slots[OldSlot(s, q)].path) == q
  {
    RmdirKernel(s.k, q);
    if Watching(s.k, q) {
      FindsPath(s.slots, s.k, q);
      DropInSync(s.slots, s.k, DoRmdir(s.k, q).0, OldSlot(s, q));
    } else {
      SameWatches(s.slots, s.k, DoRmdir(s.k, q).0);
    }
    RemovedGood(s, DoRmdir(s.k, q).0, q, Freed(s, q).slots);
  }

  /** What the proofs need: t is s without the old directory, which had slot j, and the rename is
      one in t. */
  ghost predicate Replacing(s: St, t: St, k: Kernel, p: Path, q: Path, j: nat, wd: int) {
    && Step(t, k, p, q) && DistinctRoots(s.roots)
    && t.roots == WithoutRoot(s.roots, q) && j < |s.slots| && t.slots == s.slots[j := EMPTY_SLOT]
    && s.slots[j].wd == wd >= 0 && Split(s.slots[j].path) == q && j == FindWatch(s.slots, wd)
    && wd !in k.wds.Values
  }

  lemma {:induction false} Replaces(s: St, p: Path, q: Path, k: Kernel) returns (j: nat)
    requires Good(s) && CanReplace(s.k, p, q) && Watching(s.k, q) && k == DoReplace(s.k, p, q).0
    ensures Good(Freed(s, q)) && Replacing(s, Freed(s, q), k, p, q, j, WdOf(s.k, q))
  {
    FreedGood(s, q);
    j := OldSlot(s, q);
    FreedPlace(s.k, p, q);
    RenameStep(Freed(s, q), k, p, q);
    WatchGone(s.k, q);
  }

  lemma {:induction false} WatchGone(k: Kernel, q: Path)
    requires KernelOk(k) && CanRmdir(k, q) && Watching(k, q)
    ensures WdOf(k, q) !in DoRmdir(k, q).0.wds.Values
  {
  }

  // ----- the slot that is stale

  /** Emptying slot j does not hide the others. */
  lemma {:induction false} SameFind(slots: seq<Watch>, j: nat, wd: int)
    requires j < |slots| && slots[j].wd != wd && wd != -1
    ensures FindWatch(slots[j := EMPTY_SLOT], wd) == FindWatch(slots, wd)
  {
    FindsFirst(slots, slots[j := EMPTY_SLOT], wd);
  }

  lemma {:induction false} FindsFirst(x: seq<Watch>, y: seq<Watch>, wd: int)
    requires |x| == |y| && forall i :: 0 <= i < |x| ==> (x[i].wd == wd <==> y[i].wd == wd)
    ensures FindWatch(x, wd) == FindWatch(y, wd)
  {
    var a, b := FindWatch(x, wd), FindWatch(y, wd);
    assert a >= 0 ==> y[a].wd == wd;
    assert b >= 0 ==> x[b].wd == wd;
  }

  /** The watch descriptors that t knows are found in the same slots of s. */
  lemma {:induction false} FindsSame(s: St, t: St, k: Kernel, p: Path, q: Path, j: nat, wd: int, x: Path)
    requires Replacing(s, t, k, p, q, j, wd) && Watching(t.k, x)
    ensures var i := FindWatch(s.slots, WdOf(t.k, x));
            && LiveSlot(s.slots, i) && i != j && Split(s.slots[i].path) == x && s.slots[i] == t.slots[i]
            && i == FindWatch(t.slots, WdOf(t.k, x))
  {
    FindsPath(t.slots, t.k, x);
    assert WdOf(t.k, x) in t.k.wds.Values && t.k.wds == k.wds;
    SameFind(s.slots, j, WdOf(t.k, x));
  }

  /** zapSubtree of a tree that slot j is not in passes it by. */
  lemma {:induction false} ZapPasses(s: St, full: string, i: nat, j: nat)
    requires i <= |s.slots| && j < |s.slots| && !Hit(s.slots[j], full)
    ensures var z, z' := ZapFrom(s, full, i), ZapFrom(s.(slots := s.slots[j := EMPTY_SLOT]), full, i);
            && z.s.slots[j] == s.slots[j] && z'.s == z.s.(slots := z.s.slots[j := EMPTY_SLOT])
            && z'.count == z.count && z'.sent == z.sent
    decreases |s.slots| - i
  {
    if i < |s.slots| {
      if i != j && Hit(s.slots[i], full) {
        if s.slots[i].wd in s.k.wds.Values {
          var s1 := s.(k := RmWatch(s.k, s.slots[i].wd).value, slots := s.slots[i := EMPTY_SLOT]);
          ZapPasses(s1, full, i + 1, j);
          assert s.slots[i := EMPTY_SLOT][j := EMPTY_SLOT] == s.slots[j := EMPTY_SLOT][i := EMPTY_SLOT];
        }
      } else {
        ZapPasses(s, full, i + 1, j);
      }
    }
  }

  /** zapSubtree of a tree that slot j is in fails, for its watch is gone. */
  lemma {:induction false} ZapFails(s: St, full: string, i: nat, j: nat)
    requires KernelOk(s.k) && i <= j < |s.slots| && Hit(s.slots[j], full) && s.slots[j].wd !in s.k.wds.Values
    ensures var z := ZapFrom(s, full, i); z.count == -1 && KernelOk(z.s.k) && z.s.k.dirs == s.k.dirs
    decreases |s.slots| - i
  {
    if i < j {
      if Hit(s.slots[i], full) {
        if s.slots[i].wd in s.k.wds.Values {
          ZapFails(s.(k := RmWatch(s.k, s.slots[i].wd).value, slots := s.slots[i := EMPTY_SLOT]), full, i + 1, j);
        }
      } else {
        ZapFails(s, full, i + 1, j);
      }
    }
  }

  // ----- the last events

  function Gone(wd: int): seq<Event> {
    [Event(wd, {ISDIR, DELETE_SELF}, 0, ""), IgnoredEvent(wd)]
  }

  /** The stale slot is emptied, and a root at q is dropped. */
  lemma {:induction false} GoneThen(walk: Walk, s: St, q: Path, j: nat, wd: int, more: seq<Event>)
    requires |q| > 1 && DistinctRoots(s.roots) && wd >= 0 && j == FindWatch(s.slots, wd) && j < |s.slots|
    requires Split(s.slots[j].path) == q && forall e :: e in more ==> e.mask == {IGNORED}
    ensures var roots := WithoutRoot(s.roots, q);
            Drain(walk, s, Gone(wd) + more) ==
            if roots != s.roots && NoRoots(roots) then Final(s.(roots := roots), true)
            else Final(St(s.slots[j := EMPTY_SLOT], roots, s.k), false)
  {
    var roots, path, evs := WithoutRoot(s.roots, q), s.slots[j].path, Gone(wd) + more;
    if q in RootPaths(s.roots) {
      ZapsRoot(s.roots, q, path);
      RootLost(s.roots, q);
    } else {
      NoRootAt(s.roots, q, path);
      NotARoot(s.roots, q);
    }
    GoneStep(walk, s, j, evs, roots);
  }

  lemma {:induction false} GoneStep(walk: Walk, s: St, j: nat, evs: seq<Event>, roots: seq<Option<string>>)
    requires evs != [] && evs[0].mask == {ISDIR, DELETE_SELF} && evs[0].wd >= 0
    requires j == FindWatch(s.slots, evs[0].wd) && j < |s.slots|
    requires forall e :: e in evs[1..] ==> e.mask == {IGNORED}
    requires var path := s.slots[j].path; roots == if IsRoot(s.roots, path) then ZapRoot(s.roots, path) else s.roots
    requires IsRoot(s.roots, s.slots[j].path) <==> roots != s.roots
    ensures Drain(walk, s, evs) ==
            if roots != s.roots && NoRoots(roots) then Final(s.(roots := roots), true)
            else Final(St(s.slots[j := EMPTY_SLOT], roots, s.k), false)
  {
    var s1 := St(s.slots[j := EMPTY_SLOT], roots, s.k);
    if roots != s.roots && NoRoots(roots) {
      DrainEnds(walk, s, evs, Exited(s.(roots := roots)));
    } else {
      DrainStep(walk, s, evs, s1, 1, [], evs[1..]);
      DrainIgnored(walk, s1, evs[1..]);
    }
  }

  // ----- within the trees

  /** The pair of events: the stale slot stays as it is. */
  lemma {:induction false} PairAround(walk: Walk, s: St, t: St, k: Kernel, p: Path, q: Path, j: nat, wd: int,
          from: Event, to: Event, more: seq<Event>) returns (a: St)
    requires Replacing(s, t, k, p, q, j, wd) && FromFor(t.k, p, from) && ToFor(t.k, q, to) && from.cookie == to.cookie
    ensures a.k == k && a.roots == s.roots && j < |a.slots| && a.slots[j] == s.slots[j] && j == FindWatch(a.slots, wd)
    ensures InSync(a.slots[j := EMPTY_SLOT], k)
    ensures Drain(walk, s.(k := k), [from, to] + more) == Drain(walk, a, more)
  {
    FindsSame(s, t, k, p, q, j, wd, Parent(p));
    FindsSame(s, t, k, p, q, j, wd, Parent(q));
    var i, full := FindsChild(t.slots, t.k, p);
    var i', dest := FindsChild(t.slots, t.k, q);
    RewriteInSync(t.slots, t.k, k, full, dest);
    RewriteAround(s.slots, j, full, dest, wd);
    a := St(RewritePaths(s.slots, full, dest), s.roots, k);
    PairThen(walk, s.(k := k), from, to, more, i, i');
  }

  lemma {:induction false} RewriteAround(slots: seq<Watch>, j: nat, full: string, dest: string, wd: int)
    requires j < |slots| && !(Split(full) <= Split(slots[j].path)) && full != "" && j == FindWatch(slots, wd)
    ensures var r := RewritePaths(slots, full, dest);
            && r[j] == slots[j] && j == FindWatch(r, wd)
            && r[j := EMPTY_SLOT] == RewritePaths(slots[j := EMPTY_SLOT], full, dest)
  {
    UnderIsPrefix(full, slots[j].path);
    FindsFirst(slots, RewritePaths(slots, full, dest), wd);
  }

  lemma {:induction false} RootsRemain(t: St, q: Path)
    requires Covers(t) && |q| > 1 && Watching(t.k, Parent(q))
    ensures !NoRoots(t.roots)
  {
  }

  /** After the pair, the old slot goes. */
  lemma {:induction false} WithinGone(walk: Walk, s: St, t: St, k: Kernel, p: Path, q: Path, j: nat, wd: int, a: St)
    requires Good(t) && Replacing(s, t, k, p, q, j, wd) && Watching(t.k, Parent(p)) && Watching(t.k, Parent(q))
    requires a.k == k && a.roots == s.roots && j < |a.slots| && a.slots[j] == s.slots[j] && j == FindWatch(a.slots, wd)
    requires InSync(a.slots[j := EMPTY_SLOT], k)
    ensures Ends(Drain(walk, a, Gone(wd)), s, k, t.roots, true)
  {
    assert Gone(wd) + [] == Gone(wd);
    GoneThen(walk, a, q, j, wd, []);
    RootsRemain(t, q);
    var r := St(a.slots[j := EMPTY_SLOT], t.roots, k);
    WithinMoves(t, k, p, q, r);
    MovesExactly(t, k, p, q, r, true);
  }

  lemma {:induction false} QuietWithin(walk: Walk, s: St, t: St, k: Kernel, p: Path, q: Path, j: nat, wd: int,
          from: Event, to: Event)
    requires Good(t) && Replacing(s, t, k, p, q, j, wd)
    requires FromFor(t.k, p, from) && ToFor(t.k, q, to) && from.cookie == to.cookie
    ensures Ends(Drain(walk, s.(k := k), [from, to] + Gone(wd)), s, k, t.roots, true)
  {
    var a := PairAround(walk, s, t, k, p, q, j, wd, from, to, Gone(wd));
    WithinGone(walk, s, t, k, p, q, j, wd, a);
  }

  /** IN_MOVE_SELF for a directory that is no root, and then others. */
  lemma {:induction false} OtherThen(walk: Walk, s: St, self: Event, more: seq<Event>, i: nat)
    requires self.mask == {MOVE_SELF} && self.wd >= 0 && i == FindWatch(s.slots, self.wd) && i < |s.slots|
    requires !IsRoot(s.roots, s.slots[i].path)
    ensures Drain(walk, s, [self] + more) == Drain(walk, s, more)
  {
    assert ([self] + more)[1..] + [] == more;
    assert ProcessNext(walk, s, [self] + more, false) == Consumed(s, 1, []);
    DrainStep(walk, s, [self] + more, s, 1, [], more);
  }

  /** For a root, where a slot in its tree is stale: the cache is rebuilt. */
  lemma {:induction false} StaleRebuilds(walk: Walk, s: St, self: Event, more: seq<Event>, i: nat, j: nat)
    requires self.mask == {MOVE_SELF} && self.wd >= 0 && i == FindWatch(s.slots, self.wd) && i < |s.slots|
    requires IsRoot(s.roots, s.slots[i].path) && !NoRoots(ZapRoot(s.roots, s.slots[i].path))
    requires KernelOk(s.k) && j < |s.slots| && Hit(s.slots[j], s.slots[i].path) && s.slots[j].wd !in s.k.wds.Values
    ensures exists z: St :: z.roots == ZapRoot(s.roots, s.slots[i].path) && z.k.dirs == s.k.dirs && KernelOk(z.k) &&
                            Drain(walk, s, [self] + more) == Final(Reinitialize(walk, z), false)
  {
    var s1 := s.(roots := ZapRoot(s.roots, s.slots[i].path));
    ZapFails(s1, s.slots[i].path, 0, j);
    var z := ZapFrom(s1, s.slots[i].path, 0);
    DrainEnds(walk, s, [self] + more, Rebuilt(Reinitialize(walk, z.s)));
  }

  /** The slot of the moved directory has the new path, which is the old slot's. */
  lemma {:induction false} NewSlot(t: St, k: Kernel, p: Path, q: Path, a: St, j: nat, wd: int, self: Event)
    returns (i: nat)
    requires Step(t, k, p, q) && SelfFor(t.k, p, self) && a.k == k && j < |a.slots| && a.slots[j].wd == wd
    requires InSync(a.slots[j := EMPTY_SLOT], k) && wd !in k.wds.Values
    ensures i < |a.slots| && i == FindWatch(a.slots, self.wd) && Split(a.slots[i].path) == q && self.wd >= 0
  {
    assert Moved(p, p, q) == q && WdOf(k, q) == self.wd;
    FindsPath(a.slots[j := EMPTY_SLOT], k, q);
    SameFind(a.slots, j, self.wd);
    i := FindWatch(a.slots, self.wd);
  }

  lemma {:induction false} LoudWithin(walk: Walk, s: St, t: St, k: Kernel, p: Path, q: Path, j: nat, wd: int,
          from: Event, to: Event, self: Event)
    requires Walks(walk) && Good(t) && Replacing(s, t, k, p, q, j, wd) && SelfFor(t.k, p, self)
    requires FromFor(t.k, p, from) && ToFor(t.k, q, to) && from.cookie == to.cookie
    ensures Ends(Drain(walk, s.(k := k), [from, to] + ([self] + Gone(wd))), s, k, t.roots, true)
  {
    var a := PairAround(walk, s, t, k, p, q, j, wd, from, to, [self] + Gone(wd));
    var i := NewSlot(t, k, p, q, a, j, wd, self);
    if q in RootPaths(s.roots) {
      ZapsRoot(s.roots, q, a.slots[i].path);
      RootsRemain(t, q);
      UnderIsPrefix(a.slots[i].path, a.slots[j].path);
      StaleRebuilds(walk, a, self, Gone(wd), i, j);
      var z: St :| z.roots == t.roots && z.k.dirs == k.dirs && KernelOk(z.k) &&
                   Drain(walk, a, [self] + Gone(wd)) == Final(Reinitialize(walk, z), false);
      ReinitializeAgrees(walk, z);
    } else {
      NoRootAt(s.roots, q, a.slots[i].path);
      OtherThen(walk, a, self, Gone(wd), i);
      WithinGone(walk, s, t, k, p, q, j, wd, a);
    }
  }

  // ----- zapSubtree around the stale slot

  /** Only slot j has the watch that is gone. */
  lemma {:induction false} OnlySlot(s: St, t: St, k: Kernel, p: Path, q: Path, j: nat, wd: int, i: nat)
    requires Replacing(s, t, k, p, q, j, wd) && i < |s.slots| && s.slots[i].wd == wd
    ensures i == j
  {
    if i != j {
      assert LiveSlot(t.slots, i) && SlotOk(t.slots[i], t.k);
      assert WdOf(t.k, Split(t.slots[i].path)) in t.k.wds.Values;
    }
  }

  /** What zapSubtree of the old place leaves, and the same without the stale slot. */
  lemma {:induction false} ZapAround(s: St, t: St, k: Kernel, k': Kernel, p: Path, q: Path, j: nat, wd: int,
          full: string, roots: seq<Option<string>>)
    requires Replacing(s, t, k, p, q, j, wd) && Remasked(k, k', q) && Split(full) == p
    ensures var z := ZapFrom(St(s.slots, roots, k'), full, 0);
            && z.count >= 0 && z.s.roots == roots && KernelOk(z.s.k) && j < |z.s.slots| && z.s.slots[j] == s.slots[j]
            && j == FindWatch(z.s.slots, wd)
            && Moves(t, k, p, q, St(z.s.slots[j := EMPTY_SLOT], t.roots, z.s.k), false)
            && forall w :: w != wd && w != -1 ==>
                 FindWatch(z.s.slots, w) == FindWatch(ZapFrom(St(t.slots, roots, k'), full, 0).s.slots, w)
  {
    var a := St(s.slots, roots, k');
    UnderIsPrefix(full, s.slots[j].path);
    ZapPasses(a, full, 0, j);
    ZapsTree(St(t.slots, roots, t.k), k', p, q, full);
    var z, z' := ZapFrom(a, full, 0), ZapFrom(St(t.slots, roots, k'), full, 0);
    ZapFinds(s, t, k, k', p, q, j, wd, full, roots);
    ZappedMoves(t, k, k', p, q, St(z'.s.slots, t.roots, z'.s.k));
    forall w | w != wd && w != -1
      ensures FindWatch(z.s.slots, w) == FindWatch(z'.s.slots, w)
    {
      SameFind(z.s.slots, j, w);
    }
  }

  lemma {:induction false} ZapFinds(s: St, t: St, k: Kernel, k': Kernel, p: Path, q: Path, j: nat, wd: int,
          full: string, roots: seq<Option<string>>)
    requires Replacing(s, t, k, p, q, j, wd) && ZapFrom(St(s.slots, roots, k'), full, 0).count >= 0
    requires !Hit(s.slots[j], full)
    ensures j == FindWatch(ZapFrom(St(s.slots, roots, k'), full, 0).s.slots, wd)
  {
    var r := ZapFrom(St(s.slots, roots, k'), full, 0).s.slots;
    ZapSlots(St(s.slots, roots, k'), full, 0);
    forall i | 0 <= i < |r|
      ensures r[i].wd == wd <==> s.slots[i].wd == wd
    {
      if s.slots[i].wd == wd {
        OnlySlot(s, t, k, p, q, j, wd, i);
      }
    }
    FindsFirst(s.slots, r, wd);
  }

  // ----- out of the trees

  lemma {:induction false} QuietOut(walk: Walk, s: St, t: St, k: Kernel, p: Path, q: Path, j: nat, wd: int, from: Event)
    requires Good(t) && Replacing(s, t, k, p, q, j, wd) && FromFor(t.k, p, from) && !Watching(t.k, Parent(q))
    ensures Ends(Drain(walk, s.(k := k), [from] + Gone(wd)), s, k, t.roots, !Revives(t.roots, t.k, p, q))
  {
    var i, full := OutSlot(s, t, k, p, q, j, wd, from);
    var z := ZapFrom(s.(k := k), full, 0).s;
    assert s.(k := k) == St(s.slots, s.roots, k);
    ZapAround(s, t, k, k, p, q, j, wd, full, s.roots);
    OutGone(walk, s.(k := k), q, j, wd, from, i);
    MovesExactly(t, k, p, q, St(z.slots[j := EMPTY_SLOT], t.roots, z.k), false);
  }

  lemma {:induction false} OutGone(walk: Walk, s: St, q: Path, j: nat, wd: int, from: Event, i: nat)
    requires |q| > 1 && DistinctRoots(s.roots) && wd >= 0
    requires from.mask == {ISDIR, MOVED_FROM} && i == FindWatch(s.slots, from.wd) && i < |s.slots| && s.slots[i].wd >= 0
    requires var z := ZapFrom(s, Child(s.slots[i].path, from.name), 0);
             && z.count >= 0 && z.s.roots == s.roots && j < |z.s.slots| && j == FindWatch(z.s.slots, wd)
             && Split(z.s.slots[j].path) == q
    ensures var z, roots := ZapFrom(s, Child(s.slots[i].path, from.name), 0).s, WithoutRoot(s.roots, q);
            Drain(walk, s, [from] + Gone(wd)) ==
            if roots != s.roots && NoRoots(roots) then Final(z.(roots := roots), true)
            else Final(St(z.slots[j := EMPTY_SLOT], roots, z.k), false)
  {
    var full := Child(s.slots[i].path, from.name);
    var z := ZapFrom(s, full, 0);
    ZapSendsIgnored(s, full, 0);
    OutThen(walk, s, from, Gone(wd), i);
    GoneThen(walk, z.s, q, j, wd, z.sent);
  }

  /** An IN_MOVED_FROM without its partner, and then others. */
  lemma {:induction false} OutThen(walk: Walk, s: St, from: Event, more: seq<Event>, i: nat)
    requires more != [] && from.mask == {ISDIR, MOVED_FROM} && !IsPair(from, more[0])
    requires i == FindWatch(s.slots, from.wd) && i < |s.slots| && s.slots[i].wd >= 0
    requires ZapFrom(s, Child(s.slots[i].path, from.name), 0).count >= 0
    ensures var z := ZapFrom(s, Child(s.slots[i].path, from.name), 0);
            Drain(walk, s, [from] + more) == Drain(walk, z.s, more + z.sent)
  {
    var z := ZapFrom(s, Child(s.slots[i].path, from.name), 0);
    UnpairedZaps(walk, s, [from] + more, i);
    assert ([from] + more)[1..] == more;
    DrainStep(walk, s, [from] + more, z.s, 1, z.sent, more + z.sent);
  }

  /** The cache is rebuilt, and the last events are lost with the rest of the buffer. */
  lemma {:induction false} LoudOut(walk: Walk, s: St, t: St, k: Kernel, p: Path, q: Path, j: nat, wd: int,
          from: Event, self: Event)
    requires Walks(walk) && Replacing(s, t, k, p, q, j, wd) && FromFor(t.k, p, from) && SelfFor(t.k, p, self)
    ensures Ends(Drain(walk, s.(k := k), [from] + ([self] + Gone(wd))), s, k, s.roots, true)
  {
    var i, full := OutSlot(s, t, k, p, q, j, wd, from);
    var z := ZapFrom(s.(k := k), full, 0);
    assert s.(k := k) == St(s.slots, s.roots, k);
    ZapAround(s, t, k, k, p, q, j, wd, full, s.roots);
    SelfSlotGone(s, t, k, p, q, j, wd, full, self);
    OutRebuilds(walk, s.(k := k), from, self, Gone(wd), i);
    ReinitializeAgrees(walk, z.s);
  }

  lemma {:induction false} OutSlot(s: St, t: St, k: Kernel, p: Path, q: Path, j: nat, wd: int, from: Event)
    returns (i: nat, full: string)
    requires Replacing(s, t, k, p, q, j, wd) && FromFor(t.k, p, from)
    ensures i < |s.slots| && i == FindWatch(s.slots, from.wd) && s.slots[i].wd >= 0
    ensures full == Child(s.slots[i].path, from.name) && Split(full) == p
  {
    FindsSame(s, t, k, p, q, j, wd, Parent(p));
    i, full := FindsChild(t.slots, t.k, p);
  }

  lemma {:induction false} OutRebuilds(walk: Walk, s: St, from: Event, self: Event, more: seq<Event>, i: nat)
    requires from.mask == {ISDIR, MOVED_FROM} && i == FindWatch(s.slots, from.wd) && i < |s.slots| && s.slots[i].wd >= 0
    requires self.mask == {MOVE_SELF} && self.wd >= 0
    requires var z := ZapFrom(s, Child(s.slots[i].path, from.name), 0);
             z.count >= 0 && FindWatch(z.s.slots, self.wd) == -1
    ensures var z := ZapFrom(s, Child(s.slots[i].path, from.name), 0);
            Drain(walk, s, [from] + ([self] + more)) == Final(Reinitialize(walk, z.s), false)
  {
    var z := ZapFrom(s, Child(s.slots[i].path, from.name), 0);
    OutThen(walk, s, from, [self] + more, i);
    assert ([self] + more) + z.sent == [self] + (more + z.sent);
    UnknownMoved(walk, z.s, self, more + z.sent);
  }

  lemma {:induction false} SelfSlotGone(s: St, t: St, k: Kernel, p: Path, q: Path, j: nat, wd: int, full: string,
          self: Event)
    requires Replacing(s, t, k, p, q, j, wd) && SelfFor(t.k, p, self) && Split(full) == p
    ensures self.wd >= 0 && FindWatch(ZapFrom(s.(k := k), full, 0).s.slots, self.wd) == -1
  {
    var t1 := St(t.slots, s.roots, t.k);
    OtherWatch(t, k, p, wd);
    ZapsTree(t1, k, p, q, full);
    SlotGone(t1, k, p, full);
    ZapAround(s, t, k, k, p, q, j, wd, full, s.roots);
    assert s.(k := k) == St(s.slots, s.roots, k) && t1.(k := k) == St(t.slots, s.roots, k);
  }

  lemma {:induction false} OtherWatch(t: St, k: Kernel, x: Path, wd: int)
    requires KernelOk(t.k) && Watching(t.k, x) && t.k.wds == k.wds && wd !in k.wds.Values
    ensures WdOf(t.k, x) != wd && WdOf(t.k, x) >= 0
  {
    assert WdOf(t.k, x) in t.k.wds.Values;
  }

  // ----- from a directory that is not watched

  /** The path is cached already, so that an arrival there is passed over. */
  lemma {:induction false} ArrivalSkipped(walk: Walk, s: St, t: St, k: Kernel, p: Path, q: Path, j: nat, wd: int,
          to: Event, more: seq<Event>)
    requires Replacing(s, t, k, p, q, j, wd) && ToFor(t.k, q, to)
    ensures Drain(walk, s.(k := k), [to] + more) == Drain(walk, s.(k := k), more)
  {
    FindsSame(s, t, k, p, q, j, wd, Parent(q));
    var i, full := FindsChild(t.slots, t.k, q);
    SplitInjective(full, s.slots[j].path);
    assert PathInCache(s.slots, full);
    CachedArrival(walk, s.(k := k), to, more, i);
  }

  lemma {:induction false} CachedArrival(walk: Walk, s: St, ev: Event, more: seq<Event>, i: nat)
    requires i == FindWatch(s.slots, ev.wd) && i < |s.slots| && s.slots[i].wd >= 0 && Arrival(ev)
    requires PathInCache(s.slots, Child(s.slots[i].path, ev.name))
    ensures Drain(walk, s, [ev] + more) == Drain(walk, s, more)
  {
    assert ([ev] + more)[1..] + [] == more;
    DrainStep(walk, s, [ev] + more, s, 1, [], more);
  }

  /** A root that is not below another one: its tree is zapped, and the old slot goes. */
  lemma {:induction false} TopGone(walk: Walk, s: St, t: St, k: Kernel, p: Path, q: Path, j: nat, wd: int, self: Event)
    requires Good(t) && Replacing(s, t, k, p, q, j, wd) && p in RootPaths(s.roots) && SelfFor(t.k, p, self)
    requires !NoRoots(WithoutRoot(s.roots, p))
    ensures Ends(Drain(walk, s.(k := k), [self] + Gone(wd)), s, k, WithoutRoot(t.roots, p),
                 !Watching(t.k, Parent(q)) && !Revives(t.roots, t.k, p, q))
  {
    var roots := WithoutRoot(s.roots, p);
    FindsSame(s, t, k, p, q, j, wd, p);
    var i := FindWatch(s.slots, self.wd);
    var path := s.slots[i].path;
    ZapsRoot(s.roots, p, path);
    ZapAround(s, t, k, k, p, q, j, wd, path, roots);
    var z := ZapFrom(St(s.slots, roots, k), path, 0);
    ZapSendsIgnored(St(s.slots, roots, k), path, 0);
    SelfThen(walk, s.(k := k), self, Gone(wd), i);
    OtherRoots(s.roots, p, p);
    GoneThen(walk, z.s, q, j, wd, z.sent);
    BothWithout(s.roots, p, q);
    RootLost(s.roots, p);
    var r := St(z.s.slots[j := EMPTY_SLOT], WithoutRoot(t.roots, p), z.s.k);
    TopMoves(t, k, p, q, St(r.slots, t.roots, r.k), r);
  }

  lemma {:induction false} TopMoves(t: St, k: Kernel, p: Path, q: Path, a: St, r: St)
    requires Good(t) && Step(t, k, p, q) && Moves(t, k, p, q, a, false)
    requires r == a.(roots := WithoutRoot(t.roots, p))
    ensures Agree(r) <==> !Watching(t.k, Parent(q)) && !Revives(t.roots, t.k, p, q)
    ensures Agree(r) ==> Good(r)
    ensures r.k.dirs == k.dirs
  {
    assert Moves(t, k, p, q, r, false);
    MovesExactly(t, k, p, q, r, false);
  }

  lemma {:induction false} BothWithout(roots: seq<Option<string>>, p: Path, q: Path)
    ensures WithoutRoot(WithoutRoot(roots, p), q) == WithoutRoot(WithoutRoot(roots, q), p)
  {
  }

  /** IN_MOVE_SELF for a root, and then others. */
  lemma {:induction false} SelfThen(walk: Walk, s: St, self: Event, more: seq<Event>, i: nat)
    requires self.mask == {MOVE_SELF} && self.wd >= 0 && i == FindWatch(s.slots, self.wd) && i < |s.slots|
    requires IsRoot(s.roots, s.slots[i].path) && !NoRoots(ZapRoot(s.roots, s.slots[i].path))
    requires ZapFrom(s.(roots := ZapRoot(s.roots, s.slots[i].path)), s.slots[i].path, 0).count >= 0
    ensures var z := ZapFrom(s.(roots := ZapRoot(s.roots, s.slots[i].path)), s.slots[i].path, 0);
            Drain(walk, s, [self] + more) == Drain(walk, z.s, more + z.sent)
  {
    var z := ZapFrom(s.(roots := ZapRoot(s.roots, s.slots[i].path)), s.slots[i].path, 0);
    assert ([self] + more)[1..] == more;
    DrainStep(walk, s, [self] + more, z.s, 1, z.sent, more + z.sent);
  }

  /** Any other directory: the old slot goes, and nothing else happens. */
  lemma {:induction false} UnseenGone(walk: Walk, s: St, t: St, k: Kernel, p: Path, q: Path, j: nat, wd: int)
    requires Good(t) && Replacing(s, t, k, p, q, j, wd) && !Watching(t.k, Parent(p)) && p !in RootPaths(t.roots)
    ensures Ends(Drain(walk, s.(k := k), Gone(wd)), s, k, t.roots,
                 !Watching(t.k, Parent(q)) && !Revives(t.roots, t.k, p, q) && NoLiveRootBelow(t.roots, t.k, p))
  {
    assert Gone(wd) + [] == Gone(wd);
    GoneThen(walk, s.(k := k), q, j, wd, []);
    var r := St(t.slots, t.roots, k);
    UnseenExactly(t, k, p, q);
    if !NoLiveRootBelow(t.roots, t.k, p) {
      var x := LiveRoot(t, p);
    }
  }

  lemma {:induction false} UnseenExactly(t: St, k: Kernel, p: Path, q: Path)
    requires Good(t) && Step(t, k, p, q) && !Watching(t.k, Parent(p)) && p !in RootPaths(t.roots)
    ensures var r := t.(k := k);
            && (Agree(r) <==>
                !Watching(t.k, Parent(q)) && !Revives(t.roots, t.k, p, q) && NoLiveRootBelow(t.roots, t.k, p))
            && (Agree(r) ==> Good(r))
  {
    if NoLiveRootBelow(t.roots, t.k, p) {
      TreeUnwatched(t, p);
      NothingCarried(t, k, p, q);
      Outside(t, k, p, q);
      MovesExactly(t, k, p, q, t.(k := k), false);
    } else {
      var x := LiveRoot(t, p);
      FindsPath(t.slots, t.k, x);
      StaleSlot(t, k, p, q, t.(k := k), x);
    }
  }

  // ----- all of them

  /** When replacing q by p is harmless; t is the state without the old directory. */
  ghost predicate ReplaceHarmless(t: St, p: Path, q: Path)
    requires |p| > 1 && |q| > 1
  {
    var from, to := Watching(t.k, Parent(p)), Watching(t.k, Parent(q));
    if from then to || Flagged(t.k, p) || !Revives(t.roots, t.k, p, q)
    else !to && !Revives(t.roots, t.k, p, q) && (p in RootPaths(t.roots) || NoLiveRootBelow(t.roots, t.k, p))
  }

  ghost function RootsAfterReplace(s: St, t: St, p: Path, q: Path): seq<Option<string>>
    requires |p| > 1 && |q| > 1
  {
    if Flagged(t.k, p) && !Watching(t.k, Parent(p)) then WithoutRoot(t.roots, p)
    else if Flagged(t.k, p) && !Watching(t.k, Parent(q)) then s.roots
    else t.roots
  }

  lemma {:induction false} LoudReplace(walk: Walk, s: St, t: St, k: Kernel, p: Path, q: Path, j: nat, wd: int,
          from: Event, to: Event, self: Event, moved: seq<Event>)
    requires Walks(walk) && Good(t) && Replacing(s, t, k, p, q, j, wd) && UnderRoots(s.roots, q)
    requires Flagged(t.k, p) && SelfFor(t.k, p, self) && EventsFor(t.k, p, q, from, to, moved)
    ensures Ends(Drain(walk, s.(k := k), moved + ([self] + Gone(wd))), s, k, RootsAfterReplace(s, t, p, q),
                 ReplaceHarmless(t, p, q))
  {
    if Watching(t.k, Parent(p)) {
      LoudFrom(walk, s, t, k, p, q, j, wd, from, to, self, moved);
    } else {
      TopReplace(walk, s, t, k, p, q, j, wd, to, self);
    }
  }

  lemma {:induction false} LoudFrom(walk: Walk, s: St, t: St, k: Kernel, p: Path, q: Path, j: nat, wd: int,
          from: Event, to: Event, self: Event, moved: seq<Event>)
    requires Walks(walk) && Good(t) && Replacing(s, t, k, p, q, j, wd) && FromFor(t.k, p, from)
    requires from.cookie == to.cookie && SelfFor(t.k, p, self) && (Watching(t.k, Parent(q)) ==> ToFor(t.k, q, to))
    requires moved == if Watching(t.k, Parent(q)) then [from, to] else [from]
    ensures Ends(Drain(walk, s.(k := k), moved + ([self] + Gone(wd))), s, k,
                 if Watching(t.k, Parent(q)) then t.roots else s.roots, true)
  {
    if Watching(t.k, Parent(q)) {
      LoudWithin(walk, s, t, k, p, q, j, wd, from, to, self);
    } else {
      LoudOut(walk, s, t, k, p, q, j, wd, from, self);
    }
  }

  lemma {:induction false} SkipThen(walk: Walk, s: St, t: St, k: Kernel, p: Path, q: Path, j: nat, wd: int,
          to: Event, more: seq<Event>)
    requires Replacing(s, t, k, p, q, j, wd) && (Watching(t.k, Parent(q)) ==> ToFor(t.k, q, to))
    ensures Drain(walk, s.(k := k), (if Watching(t.k, Parent(q)) then [to] else []) + more) ==
            Drain(walk, s.(k := k), more)
  {
    if Watching(t.k, Parent(q)) {
      ArrivalSkipped(walk, s, t, k, p, q, j, wd, to, more);
    } else {
      assert [] + more == more;
    }
  }

  lemma {:induction false} TopReplace(walk: Walk, s: St, t: St, k: Kernel, p: Path, q: Path, j: nat, wd: int,
          to: Event, self: Event)
    requires Good(t) && Replacing(s, t, k, p, q, j, wd) && UnderRoots(s.roots, q)
    requires SelfFor(t.k, p, self) && !Watching(t.k, Parent(p)) && (Watching(t.k, Parent(q)) ==> ToFor(t.k, q, to))
    ensures var evs := (if Watching(t.k, Parent(q)) then [to] else []) + ([self] + Gone(wd));
            Ends(Drain(walk, s.(k := k), evs), s, k, WithoutRoot(t.roots, p),
                 !Watching(t.k, Parent(q)) && !Revives(t.roots, t.k, p, q))
    ensures p in RootPaths(t.roots)
  {
    TopFacts(s, t, k, p, q);
    SkipThen(walk, s, t, k, p, q, j, wd, to, [self] + Gone(wd));
    TopGone(walk, s, t, k, p, q, j, wd, self);
  }

  lemma {:induction false} TopFacts(s: St, t: St, k: Kernel, p: Path, q: Path)
    requires Good(t) && Step(t, k, p, q) && Watching(t.k, p) && !Watching(t.k, Parent(p))
    requires t.roots == WithoutRoot(s.roots, q) && UnderRoots(s.roots, q)
    ensures p in RootPaths(t.roots) && p in RootPaths(s.roots) && !NoRoots(WithoutRoot(s.roots, p))
  {
    TopIsRoot(t, p);
    OtherRoots(s.roots, q, p);
    AnotherRoot(s, p, q);
  }

  /** The root above the old directory is not p. */
  lemma {:induction false} AnotherRoot(s: St, p: Path, q: Path)
    requires UnderRoots(s.roots, q) && !(p <= q)
    ensures !NoRoots(WithoutRoot(s.roots, p))
  {
    UnderOthers(s.roots, p, q);
  }

  lemma {:induction false} QuietReplace(walk: Walk, s: St, t: St, k: Kernel, p: Path, q: Path, j: nat, wd: int,
          from: Event, to: Event, moved: seq<Event>)
    requires Good(t) && Replacing(s, t, k, p, q, j, wd)
    requires !Flagged(t.k, p) && EventsFor(t.k, p, q, from, to, moved)
    requires !Watching(t.k, Parent(p)) ==> p !in RootPaths(t.roots)
    ensures Ends(Drain(walk, s.(k := k), moved + Gone(wd)), s, k, RootsAfterReplace(s, t, p, q),
                 ReplaceHarmless(t, p, q))
  {
    if Watching(t.k, Parent(p)) {
      if Watching(t.k, Parent(q)) {
        QuietWithin(walk, s, t, k, p, q, j, wd, from, to);
      } else {
        QuietOut(walk, s, t, k, p, q, j, wd, from);
      }
    } else {
      SkipThen(walk, s, t, k, p, q, j, wd, to, Gone(wd));
      UnseenGone(walk, s, t, k, p, q, j, wd);
    }
  }
}
