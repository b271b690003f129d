/**
 Directory renames: what they do to the kernel, how the program rewrites or zaps its slots, and
 when the result agrees.
 */
module InotifyRenames {
  import opened Wrappers
  import opened PathNames
  import opened InotifySpec
  import opened InotifyProofs
  import opened InotifyAgreement

  /** p is renamed to q, and the kernel's directories are as after the system call. */
  ghost predicate Renamed(k: Kernel, k': Kernel, p: Path, q: Path) {
    && (forall x {:trigger Moved(x, p, q)} :: x in k.dirs ==>
          Moved(x, p, q) in k'.dirs && k'.dirs[Moved(x, p, q)] == k.dirs[x])
    && (forall y {:trigger Moved(y, q, p)} :: y in k'.dirs ==>
          Moved(y, q, p) in k.dirs && Moved(Moved(y, q, p), p, q) == y)
    && k'.wds == k.wds && k'.nextInode == k.nextInode && k'.nextWd == k.nextWd
  }

  lemma {:induction false} RenameMoves(k: Kernel, p: Path, q: Path)
    requires KernelOk(k) && CanRename(k, p, q)
    ensures Renamed(k, DoRename(k, p, q).0, p, q)
  {
    AllAbsent(k, q);
    MovedBack(k.dirs, p, q);
    var dirs := MovedDirs(k.dirs, p, q);
    forall y | y in dirs
      ensures Moved(y, q, p) in k.dirs && Moved(Moved(y, q, p), p, q) == y
    {
      var x :| x in k.dirs && y == Moved(x, p, q);
    }
    forall x | x in k.dirs
      ensures Moved(x, p, q) in dirs && dirs[Moved(x, p, q)] == k.dirs[x]
    {
    }
  }

  lemma {:induction false} MovedParent(x: Path, p: Path, q: Path)
    requires |p| > 1 && |q| > 1 && |x| > 1 && x != p
    ensures |Moved(x, p, q)| > 1 && Parent(Moved(x, p, q)) == Moved(Parent(x), p, q)
  {
    if p <= x {
      assert p <= Parent(x);
      assert x[|p|..][..|x| - |p| - 1] == Parent(x)[|p|..];
    } else {
      assert !(p <= Parent(x));
    }
  }

  lemma {:induction false} MovedValid(x: Path, p: Path, q: Path)
    requires ValidPath(x) && ValidPath(q)
    ensures ValidPath(Moved(x, p, q))
  {
  }

  lemma {:induction false} RenamedParent(k: Kernel, k': Kernel, p: Path, q: Path, y: Path)
    requires KernelOk(k) && Renamed(k, k', p, q) && |p| > 1 && |q| > 1
    requires Parent(q) in k.dirs && !(p <= q) && y in k'.dirs && |y| > 1
    ensures Parent(y) in k'.dirs
  {
    var x := Moved(y, q, p);
    if x == p {
      assert y == q;
      assert Moved(Parent(q), p, q) == Parent(q);
    } else if |x| > 1 {
      MovedParent(x, p, q);
      assert Moved(Parent(x), p, q) in k'.dirs;
    }
  }

  lemma {:induction false} RenameKernel(k: Kernel, k': Kernel, p: Path, q: Path)
    requires KernelOk(k) && Renamed(k, k', p, q) && |p| > 1 && |q| > 1 && p in k.dirs
    requires q !in k.dirs && Parent(q) in k.dirs && NoSlash(Last(q)) && !(p <= q)
    ensures KernelOk(k')
  {
    assert ValidPath(q) by {
      assert ValidPath(Parent(q)) && q == Parent(q) + [Last(q)];
    }
    forall y | y in k'.dirs
      ensures ValidPath(y) && k'.dirs[y] < k'.nextInode
    {
      MovedValid(Moved(y, q, p), p, q);
    }
    forall y | y in k'.dirs && |y| > 1
      ensures Parent(y) in k'.dirs
    {
      RenamedParent(k, k', p, q, y);
    }
    forall y, y' | y in k'.dirs && y' in k'.dirs && k'.dirs[y] == k'.dirs[y']
      ensures y == y'
    {
      assert k.dirs[Moved(y, q, p)] == k.dirs[Moved(y', q, p)];
    }
  }

  /** Watches follow the inodes: x is watched before exactly when Moved(x) is afterwards. */
  lemma {:induction false} RenameWatching(k: Kernel, k': Kernel, p: Path, q: Path)
    requires Renamed(k, k', p, q)
    ensures forall x :: x in k.dirs ==> (Watching(k, x) <==> Watching(k', Moved(x, p, q)))
    ensures forall y :: Watching(k', y) ==>
                          && Watching(k, Moved(y, q, p)) && Moved(Moved(y, q, p), p, q) == y
                          && WdOf(k', y) == WdOf(k, Moved(y, q, p))
  {
    forall y | Watching(k', y)
      ensures Watching(k, Moved(y, q, p)) && WdOf(k', y) == WdOf(k, Moved(y, q, p))
    {
      assert k'.dirs[Moved(Moved(y, q, p), p, q)] == k.dirs[Moved(y, q, p)];
    }
  }

  // ----- within the trees

  /** rewriteCachedPaths does to every cached path what the rename did to its directory. */
  lemma {:induction false} RewriteInSync(slots: seq<Watch>, k: Kernel, k': Kernel, full: string, to: string)
    requires InSync(slots, k) && Renamed(k, k', Split(full), Split(to)) && full != ""
    ensures InSync(RewritePaths(slots, full, to), k')
  {
    var p, q := Split(full), Split(to);
    var r := RewritePaths(slots, full, to);
    RenameWatching(k, k', p, q);
    forall j | LiveSlot(r, j)
      ensures LiveSlot(slots, j) && Split(r[j].path) == Moved(Split(slots[j].path), p, q) && SlotOk(r[j], k')
    {
      assert LiveSlot(slots, j) && SlotOk(slots[j], k);
      RewriteSplits(slots[j], full, to);
      assert Watching(k, Split(slots[j].path));
    }
    forall y | Watching(k', y)
      ensures HasSlot(r, WdOf(k', y), y)
    {
      var x := Moved(y, q, p);
      assert HasSlot(slots, WdOf(k, x), x);
      var j :| LiveSlot(slots, j) && slots[j].wd == WdOf(k, x) && Split(slots[j].path) == x;
      RewriteSplits(slots[j], full, to);
      assert LiveSlot(r, j);
    }
    forall i, j | LiveSlot(r, i) && LiveSlot(r, j) && r[i].wd == r[j].wd
      ensures i == j
    {
      assert LiveSlot(slots, i) && LiveSlot(slots, j);
    }
  }

  /** The bytes of a rewritten path are the components moved. */
  lemma {:induction false} RewriteSplits(w: Watch, full: string, to: string)
    ensures RewriteSlot(w, full, to).wd == w.wd
    ensures Split(RewriteSlot(w, full, to).path) == Moved(Split(w.path), Split(full), Split(to))
  {
    UnderIsPrefix(full, w.path);
    if IsUnder(full, w.path) {
      SplitRewrite(full, to, w.path);
    }
  }

  /** The slot of a watched parent directory, and the path string the program makes of it. */
  lemma {:induction false} FindsChild(slots: seq<Watch>, k: Kernel, p: Path) returns (i: nat, full: string)
    requires KernelOk(k) && InSync(slots, k) && |p| > 1 && NoSlash(Last(p)) && Watching(k, Parent(p))
    ensures i < |slots| && i == FindWatch(slots, WdOf(k, Parent(p))) && slots[i].wd >= 0
    ensures full == Child(slots[i].path, Last(p)) && full != "" && Split(full) == p
  {
    FindsPath(slots, k, Parent(p));
    i := FindWatch(slots, WdOf(k, Parent(p)));
    full := Child(slots[i].path, Last(p));
    SplitChild(slots[i].path, Last(p));
  }

  /** The events that a rename queues for the watched parents. */
  ghost predicate FromFor(k: Kernel, p: Path, from: Event) {
    && |p| > 1 && NoSlash(Last(p)) && Watching(k, Parent(p))
    && from.mask == {ISDIR, MOVED_FROM} && from.wd == WdOf(k, Parent(p)) && from.name == Last(p)
  }

  ghost predicate ToFor(k: Kernel, q: Path, to: Event) {
    && |q| > 1 && NoSlash(Last(q)) && Watching(k, Parent(q))
    && to.mask == {ISDIR, MOVED_TO} && to.wd == WdOf(k, Parent(q)) && to.name == Last(q)
  }

  /** A matched pair of events, and then others. */
  lemma {:induction false} PairThen(walk: Walk, s: St, from: Event, to: Event, more: seq<Event>, i: nat, j: nat)
    requires from.mask == {ISDIR, MOVED_FROM} && IsPair(from, to)
    requires i == FindWatch(s.slots, from.wd) && j == FindWatch(s.slots, to.wd)
    requires i < |s.slots| && j < |s.slots| && s.slots[i].wd >= 0
    ensures Drain(walk, s, [from, to] + more) ==
            Drain(walk, s.(slots := RewritePaths(s.slots, Child(s.slots[i].path, from.name),
                                                 Child(s.slots[j].path, to.name))), more)
  {
    var s1 := s.(slots := RewritePaths(s.slots, Child(s.slots[i].path, from.name), Child(s.slots[j].path, to.name)));
    PairProcessed(walk, s, [from, to] + more, i, j);
    assert ([from, to] + more)[2..] + [] == more;
    DrainStep(walk, s, [from, to] + more, s1, 2, [], more);
  }

  /** The cached subtree is rewritten to its new paths before the events that follow. */
  lemma {:induction false} RenameWithin(walk: Walk, s: St, k: Kernel, p: Path, q: Path, from: Event, to: Event,
          more: seq<Event>) returns (s1: St)
    requires KernelOk(s.k) && InSync(s.slots, s.k) && Renamed(s.k, k, p, q)
    requires FromFor(s.k, p, from) && ToFor(s.k, q, to) && from.cookie == to.cookie
    ensures s1.roots == s.roots && s1.k == k && InSync(s1.slots, k)
    ensures Drain(walk, s.(k := k), [from, to] + more) == Drain(walk, s1, more)
  {
    var i, full := FindsChild(s.slots, s.k, p);
    var j, dest := FindsChild(s.slots, s.k, q);
    RewriteInSync(s.slots, s.k, k, full, dest);
    s1 := s.(k := k, slots := RewritePaths(s.slots, full, dest));
    PairThen(walk, s.(k := k), from, to, more, i, j);
  }

  lemma {:induction false} PairProcessed(walk: Walk, s: St, buf: seq<Event>, i: nat, j: nat)
    requires |buf| >= 2 && buf[0].mask == {ISDIR, MOVED_FROM} && IsPair(buf[0], buf[1])
    requires i == FindWatch(s.slots, buf[0].wd) && j == FindWatch(s.slots, buf[1].wd)
    requires i < |s.slots| && j < |s.slots| && s.slots[i].wd >= 0
    ensures ProcessNext(walk, s, buf, false) ==
            Consumed(s.(slots := RewritePaths(s.slots, Child(s.slots[i].path, buf[0].name),
                                              Child(s.slots[j].path, buf[1].name))), 2, [])
  {
  }

  // ----- out of the trees

  lemma {:induction false} OutNext(walk: Walk, s: St, ev: Event, i: nat)
    requires ev.mask == {ISDIR, MOVED_FROM} && i == FindWatch(s.slots, ev.wd)
    requires i < |s.slots| && s.slots[i].wd >= 0 && ZapFrom(s, Child(s.slots[i].path, ev.name), 0).count >= 0
    ensures var z := ZapFrom(s, Child(s.slots[i].path, ev.name), 0);
            ProcessNext(walk, s, [ev], false) == Consumed(z.s, 1, z.sent)
  {
    var z := ZapFrom(s, Child(s.slots[i].path, ev.name), 0);
    assert ProcessMovedFrom(walk, s, i, [ev], false) == Consumed(z.s, 1, z.sent);
  }

  lemma {:induction false} OutProcessed(walk: Walk, s: St, ev: Event, i: nat)
    requires ev.mask == {ISDIR, MOVED_FROM} && i == FindWatch(s.slots, ev.wd)
    requires i < |s.slots| && s.slots[i].wd >= 0 && ZapFrom(s, Child(s.slots[i].path, ev.name), 0).count >= 0
    ensures Drain(walk, s, [ev]) == Final(ZapFrom(s, Child(s.slots[i].path, ev.name), 0).s, false)
  {
    var full := Child(s.slots[i].path, ev.name);
    var z := ZapFrom(s, full, 0);
    ZapSendsIgnored(s, full, 0);
    OutNext(walk, s, ev, i);
    assert [ev][1..] + z.sent == z.sent;
    DrainStep(walk, s, [ev], z.s, 1, z.sent, z.sent);
    DrainIgnored(walk, z.s, z.sent);
  }

  lemma {:induction false} ZapKeeps(s: St, full: string, j: nat)
    requires j <= |s.slots|
    ensures var z := ZapFrom(s, full, j).s; z.k.dirs == s.k.dirs && z.k.selfMoves == s.k.selfMoves
    decreases |s.slots| - j
  {
    if j < |s.slots| {
      var w := s.slots[j];
      if w.wd >= 0 && IsUnder(full, w.path) {
        if w.wd in s.k.wds.Values {
          ZapKeeps(s.(k := RmWatch(s.k, w.wd).value, slots := s.slots[j := EMPTY_SLOT]), full, j + 1);
        }
      } else {
        ZapKeeps(s, full, j + 1);
      }
    }
  }

  /** zapSubtree of the old place, after the directories have moved. */
  lemma {:induction false} ZapsTree(s: St, k: Kernel, p: Path, q: Path, full: string)
    requires KernelOk(s.k) && InSync(s.slots, s.k) && Renamed(s.k, k, p, q) && KernelOk(k) && Split(full) == p
    requires forall x :: x in s.k.dirs ==> !(q <= x)
    ensures var z := ZapFrom(s.(k := k), full, 0);
            && z.count >= 0 && z.s.roots == s.roots && z.s.k.dirs == k.dirs && z.s.k.selfMoves == k.selfMoves
            && KernelOk(z.s.k) && InSync(z.s.slots, z.s.k)
            && forall x :: Watching(z.s.k, x) <==> Watching(s.k, x) && !(p <= x)
  {
    ZapWatches(s, full);
    var z := ZapFrom(s, full, 0);
    ZapDirs(s, full, 0, k.dirs, k.selfMoves, k.nextCookie);
    assert s.(k := s.k.(dirs := k.dirs, selfMoves := k.selfMoves, nextCookie := k.nextCookie)) == s.(k := k);
    var z' := ZapFrom(s.(k := k), full, 0);
    ZapKeeps(s.(k := k), full, 0);
    OutKernel(s.k, k, z.s.k, z'.s.k, p, q);
    SameWatches(z.s.slots, z.s.k, z'.s.k);
  }

  lemma {:induction false} RenameOut(walk: Walk, s: St, k: Kernel, p: Path, q: Path, from: Event)
    requires KernelOk(s.k) && InSync(s.slots, s.k) && Renamed(s.k, k, p, q) && KernelOk(k)
    requires |p| > 1 && NoSlash(Last(p)) && Watching(s.k, Parent(p)) && forall x :: x in s.k.dirs ==> !(q <= x)
    requires from.wd == WdOf(s.k, Parent(p)) && from.mask == {ISDIR, MOVED_FROM} && from.name == Last(p)
    ensures var f := Drain(walk, s.(k := k), [from]);
            && !f.exited && f.s.roots == s.roots && f.s.k.dirs == k.dirs && f.s.k.selfMoves == k.selfMoves
            && KernelOk(f.s.k) && InSync(f.s.slots, f.s.k)
            && (forall x :: Watching(f.s.k, x) <==> Watching(s.k, x) && !(p <= x))
  {
    var i, full := FindsChild(s.slots, s.k, p);
    ZapsTree(s, k, p, q, full);
    OutProcessed(walk, s.(k := k), from, i);
  }

  /** Nothing under p is watched any more, so it does not matter where p went. */
  lemma {:induction false} OutKernel(k0: Kernel, k: Kernel, z: Kernel, z': Kernel, p: Path, q: Path)
    requires Renamed(k0, k, p, q) && KernelOk(k) && KernelOk(z) && z.dirs == k0.dirs && z.nextInode == k0.nextInode
    requires z' == z.(dirs := k.dirs, selfMoves := k.selfMoves, nextCookie := k.nextCookie)
    requires forall x :: Watching(z, x) ==> !(p <= x)
    requires forall x :: x in k0.dirs ==> !(q <= x)
    ensures KernelOk(z')
    ensures forall x :: Watching(z', x) <==> Watching(z, x)
    ensures forall x :: Watching(z, x) ==> WdOf(z', x) == WdOf(z, x)
  {
    forall x
      ensures Watching(z', x) <==> Watching(z, x)
      ensures Watching(z, x) ==> z'.dirs[x] == z.dirs[x]
    {
      if Watching(z, x) {
        assert Moved(x, p, q) == x;
      }
      if Watching(z', x) {
        var x0 := Moved(x, q, p);
        assert k.dirs[Moved(x0, p, q)] == k0.dirs[x0];
        assert Watching(z, x0);
        assert Moved(x0, p, q) == x0;
      }
    }
  }

  // ----- what a rename comes to

  ghost predicate Renaming(s: St, k: Kernel, p: Path, q: Path) {
    Good(s) && CanRename(s.k, p, q) && k == DoRename(s.k, p, q).0
  }

  /** What the proofs need of the two states of the kernel. */
  ghost predicate Step(s: St, k: Kernel, p: Path, q: Path) {
    && KernelOk(s.k) && InSync(s.slots, s.k) && KernelOk(k) && Renamed(s.k, k, p, q) && k.selfMoves == s.k.selfMoves
    && |p| > 1 && |q| > 1 && p in s.k.dirs && NoSlash(Last(p)) && NoSlash(Last(q))
    && Parent(p) in s.k.dirs && Parent(q) in s.k.dirs && !(p <= q)
    && (forall x :: x in s.k.dirs ==> !(q <= x))
  }

  lemma {:induction false} RenameStep(s: St, k: Kernel, p: Path, q: Path)
    requires Renaming(s, k, p, q)
    ensures Step(s, k, p, q)
  {
    RenameMoves(s.k, p, q);
    RenameKernel(s.k, k, p, q);
    AllAbsent(s.k, q);
    assert ValidPath(p);
  }

  lemma {:induction false} NotBothAbove(s: St, k: Kernel, p: Path, q: Path, x: Path)
    requires Step(s, k, p, q) && p <= x
    ensures !(q <= x)
  {
    if q <= x {
      Comparable(p, q, x);
    }
  }

  /** Nothing is left at the old place. */
  lemma {:induction false} OldPlaceEmpty(s: St, k: Kernel, p: Path, q: Path, x: Path)
    requires Step(s, k, p, q) && p <= x
    ensures x !in k.dirs
  {
    NotBothAbove(s, k, p, q, x);
    assert Moved(x, q, p) == x && q <= q + x[|p|..];
  }

  /** What is outside the moved tree stays where it is. */
  lemma {:induction false} Outside(s: St, k: Kernel, p: Path, q: Path)
    requires Step(s, k, p, q)
    ensures forall x :: x in s.k.dirs && !(p <= x) ==>
              x in k.dirs && !(q <= x) && k.dirs[x] == s.k.dirs[x]
    ensures forall y :: y in k.dirs && !(q <= y) ==> y in s.k.dirs && !(p <= y)
  {
    forall x | x in s.k.dirs && !(p <= x)
      ensures x in k.dirs && k.dirs[x] == s.k.dirs[x]
    {
      assert Moved(x, p, q) == x;
    }
    forall y | y in k.dirs && !(q <= y)
      ensures y in s.k.dirs && !(p <= y)
    {
      assert Moved(y, q, p) == y;
      if p <= y {
        OldPlaceEmpty(s, k, p, q, y);
      }
    }
  }

  /** Whether the moved directories are watched before any event is processed. */
  lemma {:induction false} Carried(s: St, k: Kernel, p: Path, q: Path, watched: bool)
    requires Step(s, k, p, q) && forall x :: x in s.k.dirs && p <= x ==> (Watching(s.k, x) <==> watched)
    ensures forall y :: y in k.dirs && q <= y ==> (Watching(k, y) <==> watched)
  {
    forall y | y in k.dirs && q <= y
      ensures Watching(k, y) <==> watched
    {
      var x := Moved(y, q, p);
      assert p <= x && Moved(x, p, q) == y && k.dirs[y] == s.k.dirs[x];
    }
  }

  /** In r, after the events: outside the moved tree the same directories are watched with the same
      masks, and inside it all or none. */
  ghost predicate Moves(s: St, k: Kernel, p: Path, q: Path, r: St, inside: bool) {
    && r.k.dirs == k.dirs && KernelOk(r.k) && InSync(r.slots, r.k)
    && (forall x :: x in s.k.dirs && !(p <= x) ==>
          (Watching(r.k, x) <==> Watching(s.k, x)) && (Flagged(r.k, x) <==> Flagged(s.k, x)))
    && (forall y :: y in k.dirs && q <= y ==> (Watching(r.k, y) <==> inside))
  }

  /** A directory comes to lie at the place of a root that is gone. */
  ghost predicate Revives(roots: seq<Option<string>>, k: Kernel, p: Path, q: Path) {
    exists i :: 0 <= i < |roots| && roots[i].Some? && q <= Split(roots[i].value) &&
                Moved(Split(roots[i].value), q, p) in k.dirs
  }

  ghost predicate SameRoots(s: St, r: St, p: Path) {
    r.roots == s.roots || r.roots == WithoutRoot(s.roots, p)
  }

  lemma {:induction false} UnderParentStays(s: St, k: Kernel, p: Path, q: Path, r: St, y: Path)
    requires Step(s, k, p, q) && Covers(s) && SameRoots(s, r, p) && Watching(s.k, Parent(q)) && q <= y
    ensures UnderRoots(r.roots, y)
  {
    UnderOthers(s.roots, p, Parent(q));
    var i :| 0 <= i < |r.roots| && r.roots[i].Some? && Split(r.roots[i].value) <= Parent(q);
    assert Split(r.roots[i].value) <= y;
  }

  /** Under the new place there are roots only if the parent is under one, or one is revived. */
  lemma {:induction false} UnderNewPlace(s: St, k: Kernel, p: Path, q: Path, r: St, y: Path)
    requires Step(s, k, p, q) && Covers(s) && SameRoots(s, r, p) && y in k.dirs && q <= y && UnderRoots(r.roots, y)
    ensures Watching(s.k, Parent(q)) || Revives(s.roots, s.k, p, q)
  {
    var i :| 0 <= i < |r.roots| && r.roots[i].Some? && Split(r.roots[i].value) <= y;
    var x := Split(r.roots[i].value);
    assert s.roots[i] == r.roots[i];
    Comparable(x, q, y);
    if q <= x {
      PrefixIn(k, x, y);
    } else {
      assert x <= Parent(q);
      assert UnderRoots(s.roots, Parent(q));
    }
  }

  lemma {:induction false} RevivedIsUnder(s: St, k: Kernel, p: Path, q: Path, r: St) returns (y: Path)
    requires Renamed(s.k, k, p, q) && !(q <= p) && SameRoots(s, r, p) && Revives(s.roots, s.k, p, q)
    ensures y in k.dirs && q <= y && UnderRoots(r.roots, y)
  {
    var i :| 0 <= i < |s.roots| && s.roots[i].Some? && q <= Split(s.roots[i].value) &&
             Moved(Split(s.roots[i].value), q, p) in s.k.dirs;
    y := Split(s.roots[i].value);
    MovedThere(y, q, p);
    assert y != p && r.roots[i] == s.roots[i];
  }

  lemma {:induction false} MovedThere(y: Path, q: Path, p: Path)
    requires q <= y
    ensures Moved(Moved(y, q, p), p, q) == y
  {
    assert y == q + y[|q|..] && (p + y[|q|..])[|p|..] == y[|q|..];
  }

  /** Which directories are under the roots afterwards. */
  lemma {:induction false} RootsAround(s: St, k: Kernel, p: Path, q: Path, r: St, y: Path)
    requires Step(s, k, p, q) && Covers(s) && SameRoots(s, r, p) && y in k.dirs
    ensures !(q <= y) ==> y in s.k.dirs && !(p <= y) && (UnderRoots(r.roots, y) <==> Watching(s.k, y))
    ensures q <= y && Watching(s.k, Parent(q)) ==> UnderRoots(r.roots, y)
    ensures q <= y && UnderRoots(r.roots, y) ==> Watching(s.k, Parent(q)) || Revives(s.roots, s.k, p, q)
  {
    if q <= y {
      if Watching(s.k, Parent(q)) {
        UnderParentStays(s, k, p, q, r, y);
      }
      if UnderRoots(r.roots, y) {
        UnderNewPlace(s, k, p, q, r, y);
      }
    } else {
      Outside(s, k, p, q);
      UnderOthers(s.roots, p, y);
    }
  }

  /** The cache agrees afterwards exactly if the moved tree is watched, or is under no root. */
  lemma {:induction false} MovesExactly(s: St, k: Kernel, p: Path, q: Path, r: St, inside: bool)
    requires Step(s, k, p, q) && Good(s) && Moves(s, k, p, q, r, inside) && SameRoots(s, r, p)
    requires inside ==> Watching(s.k, Parent(q))
    ensures Agree(r) <==> inside || (!Watching(s.k, Parent(q)) && !Revives(s.roots, s.k, p, q))
    ensures Agree(r) ==> Good(r)
  {
    MovesCover(s, k, p, q, r, inside);
    MovesGood(s, k, p, q, r, inside);
  }

  lemma {:induction false} MovesCover(s: St, k: Kernel, p: Path, q: Path, r: St, inside: bool)
    requires Step(s, k, p, q) && Covers(s) && Moves(s, k, p, q, r, inside) && SameRoots(s, r, p)
    requires inside ==> Watching(s.k, Parent(q))
    ensures Covers(r) <==> inside || (!Watching(s.k, Parent(q)) && !Revives(s.roots, s.k, p, q))
  {
    if inside || (!Watching(s.k, Parent(q)) && !Revives(s.roots, s.k, p, q)) {
      forall y | y in k.dirs
        ensures Watching(r.k, y) <==> UnderRoots(r.roots, y)
      {
        RootsAround(s, k, p, q, r, y);
      }
    } else if Watching(s.k, Parent(q)) {
      assert Moved(p, p, q) == q;
      RootsAround(s, k, p, q, r, q);
    } else {
      var y := RevivedIsUnder(s, k, p, q, r);
    }
  }

  lemma {:induction false} MovesGood(s: St, k: Kernel, p: Path, q: Path, r: St, inside: bool)
    requires Step(s, k, p, q) && Good(s) && Moves(s, k, p, q, r, inside) && SameRoots(s, r, p)
    requires inside ==> Watching(s.k, Parent(q))
    ensures TopFlagged(r) && DistinctRoots(r.roots)
  {
    OtherRoots(s.roots, p, p);
    forall x | |x| > 1 && x in RootPaths(r.roots) && Watching(r.k, x) && !Watching(r.k, Parent(x))
      ensures Flagged(r.k, x)
    {
      MovedFlag(s, k, p, q, r, inside, x);
    }
  }

  lemma {:induction false} ParentBelow(q: Path, x: Path)
    requires |x| > 1 && q <= x
    ensures x == q || q <= Parent(x)
  {
  }

  lemma {:induction false} MovedFlag(s: St, k: Kernel, p: Path, q: Path, r: St, inside: bool, x: Path)
    requires Step(s, k, p, q) && TopFlagged(s) && Moves(s, k, p, q, r, inside) && SameRoots(s, r, p)
    requires inside ==> Watching(s.k, Parent(q))
    requires |x| > 1 && x in RootPaths(r.roots) && Watching(r.k, x)
    ensures Watching(r.k, Parent(x)) || Flagged(r.k, x)
  {
    Outside(s, k, p, q);
    OtherRoots(s.roots, p, x);
    assert Parent(x) in k.dirs;
    if q <= x {
      ParentBelow(q, x);
    } else {
      assert Parent(x) in s.k.dirs && !(p <= Parent(x));
    }
  }
}
