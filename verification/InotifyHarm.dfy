/**
 Which operations do harm while all the roots exist, and inputs for each kind.
 */
module InotifyHarm {
  import opened Wrappers
  import opened PathNames
  import opened InotifySpec
  import opened InotifyProofs
  import opened InotifyAgreement
  import opened InotifyRenames
  import opened InotifyMoves
  import opened InotifyRoots
  import opened InotifyReplace
  import opened InotifyRuns

  // ----- as long as all the roots are there

  /** Every root still monitored exists. */
  ghost predicate RootsExist(s: St) {
    forall i :: 0 <= i < |s.roots| && s.roots[i].Some? ==> Split(s.roots[i].value) in s.k.dirs
  }

  ghost predicate NoRootBelow(roots: seq<Option<string>>, p: Path) {
    forall i :: 0 <= i < |roots| && roots[i].Some? ==> !(p < Split(roots[i].value))
  }

  lemma {:induction false} NothingToRevive(s: St, p: Path, q: Path)
    requires KernelOk(s.k) && RootsExist(s) && CanRename(s.k, p, q)
    ensures !Revives(s.roots, s.k, p, q) && q !in RootPaths(s.roots)
  {
    AllAbsent(s.k, q);
    if q in RootPaths(s.roots) {
      var i := RootAt(s.roots, q);
    }
  }

  /** Then only two kinds of renames are harmful: of a root that is not below another one, to below
      a root; and of a directory that is not watched and has a root below it. */
  lemma {:induction false} HarmlessWithRoots(s: St, p: Path, q: Path)
    requires Good(s) && RootsExist(s) && CanRename(s.k, p, q)
    ensures Harmless(s, Rename(p, q)) <==>
            if TopRoot(s, p) then !Watching(s.k, Parent(q))
            else Watching(s.k, Parent(p)) || NoRootBelow(s.roots, p)
  {
    NothingToRevive(s, p, q);
    assert Parent(p) in s.k.dirs;
    if Watching(s.k, p) && !Watching(s.k, Parent(p)) {
      TopIsRoot(s, p);
    }
    if p in RootPaths(s.roots) {
      RootIsWatched(s, p);
    }
  }

  /** A rename leaves a dead entry in the list of roots exactly if a root moves along that is not
      the renamed directory, or is, but below another root. */
  lemma {:induction false} RootsStay(walk: Walk, s: St, p: Path, q: Path)
    requires Walks(walk) && Good(s) && RootsExist(s) && CanRename(s.k, p, q)
    ensures var f := Processed(walk, s, Rename(p, q));
            !f.exited ==>
              (RootsExist(f.s) <==>
               forall i :: 0 <= i < |s.roots| && s.roots[i].Some? && p <= Split(s.roots[i].value) ==>
                 TopRoot(s, p) && Split(s.roots[i].value) == p)
  {
    var k := DoRename(s.k, p, q).0;
    OpAgrees(walk, s, Rename(p, q));
    RenameStep(s, k, p, q);
    NothingToRevive(s, p, q);
    NotARoot(s.roots, q);
    if !Watching(s.k, Parent(p)) {
      TopIffFlagged(s, p);
    }
    RootsListed(s, p, q);
    var f := Processed(walk, s, Rename(p, q));
    if !f.exited {
      WhichRootsStay(s, k, p, q, f.s);
    }
  }

  lemma {:induction false} TopIffFlagged(s: St, p: Path)
    requires Good(s) && |p| > 1 && p in s.k.dirs && !Watching(s.k, Parent(p))
    ensures Flagged(s.k, p) <==> p in RootPaths(s.roots)
  {
    NoTopUnflagged(s, p);
    assert Parent(p) in s.k.dirs;
    if Flagged(s.k, p) {
      TopIsRoot(s, p);
    }
  }

  lemma {:induction false} RootsListed(s: St, p: Path, q: Path)
    requires |p| > 1 && |q| > 1 && WithoutRoot(s.roots, q) == s.roots
    requires !Watching(s.k, Parent(p)) ==> (Flagged(s.k, p) <==> p in RootPaths(s.roots))
    ensures RootsAfter(s, Rename(p, q)) == if TopRoot(s, p) then WithoutRoot(s.roots, p) else s.roots
  {
  }

  lemma {:induction false} WhichRootsStay(s: St, k: Kernel, p: Path, q: Path, r: St)
    requires RootsExist(s) && Step(s, k, p, q) && r.k.dirs == k.dirs
    requires r.roots == if TopRoot(s, p) then WithoutRoot(s.roots, p) else s.roots
    ensures RootsExist(r) <==> forall i :: 0 <= i < |s.roots| && s.roots[i].Some? && p <= Split(s.roots[i].value) ==>
                                 TopRoot(s, p) && Split(s.roots[i].value) == p
  {
    Outside(s, k, p, q);
    forall i | 0 <= i < |s.roots| && s.roots[i].Some? && p <= Split(s.roots[i].value)
      ensures Split(s.roots[i].value) !in k.dirs
    {
      OldPlaceEmpty(s, k, p, q, Split(s.roots[i].value));
    }
    forall i | 0 <= i < |s.roots| && s.roots[i].Some?
      ensures r.roots[i] == s.roots[i] || (TopRoot(s, p) && Split(s.roots[i].value) == p)
    {
    }
  }

  /** Of the renames onto an empty directory, those are harmless that come from a watched directory,
      or go to one that is not watched with no root moving along but the renamed directory. */
  lemma {:induction false} ReplaceWithRoots(s: St, p: Path, q: Path)
    requires KernelOk(s.k) && RootsExist(s) && CanReplace(s.k, p, q)
    ensures Harmless(s, Replace(p, q)) <==>
            Watching(s.k, Parent(p)) ||
            (!Watching(s.k, Parent(q)) && (p in RootPaths(s.roots) || NoRootBelow(s.roots, p)))
  {
    var t := Freed(s, q);
    WatchesKept(s, p, q);
    NothingRevived(s, p, q);
    RootsOfFreed(s, p, q);
    ReplaceWhen(s, t, p, q);
  }

  lemma {:induction false} ReplaceWhen(s: St, t: St, p: Path, q: Path)
    requires |p| > 1 && |q| > 1 && !Revives(t.roots, t.k, p, q)
    requires Watching(t.k, Parent(p)) <==> Watching(s.k, Parent(p))
    requires Watching(t.k, Parent(q)) <==> Watching(s.k, Parent(q))
    requires NoLiveRootBelow(t.roots, t.k, p) <==> NoRootBelow(s.roots, p)
    requires p in RootPaths(t.roots) <==> p in RootPaths(s.roots)
    ensures ReplaceHarmless(t, p, q) <==>
            Watching(s.k, Parent(p)) ||
            (!Watching(s.k, Parent(q)) && (p in RootPaths(s.roots) || NoRootBelow(s.roots, p)))
  {
  }

  lemma {:induction false} WatchesKept(s: St, p: Path, q: Path)
    requires KernelOk(s.k) && CanReplace(s.k, p, q)
    ensures Watching(Freed(s, q).k, Parent(p)) <==> Watching(s.k, Parent(p))
    ensures Watching(Freed(s, q).k, Parent(q)) <==> Watching(s.k, Parent(q))
  {
    RmdirKernel(s.k, q);
    assert Parent(p) != q && Parent(q) != q;
  }

  lemma {:induction false} NothingRevived(s: St, p: Path, q: Path)
    requires RootsExist(s) && CanReplace(s.k, p, q)
    ensures !Revives(Freed(s, q).roots, Freed(s, q).k, p, q)
  {
    var roots := WithoutRoot(s.roots, q);
    forall i | 0 <= i < |roots| && roots[i].Some?
      ensures !(q <= Split(roots[i].value))
    {
      assert roots[i] == s.roots[i];
    }
  }

  lemma {:induction false} RootsOfFreed(s: St, p: Path, q: Path)
    requires RootsExist(s) && CanReplace(s.k, p, q)
    ensures NoLiveRootBelow(Freed(s, q).roots, Freed(s, q).k, p) <==> NoRootBelow(s.roots, p)
    ensures p in RootPaths(Freed(s, q).roots) <==> p in RootPaths(s.roots)
  {
    var roots := Freed(s, q).roots;
    forall i | 0 <= i < |s.roots| && s.roots[i].Some? && p <= Split(s.roots[i].value)
      ensures roots[i] == s.roots[i] && Split(s.roots[i].value) in Freed(s, q).k.dirs
    {
    }
    if p in RootPaths(s.roots) {
      var i := RootAt(s.roots, p);
      assert RootPaths(roots)[i] == p;
    }
    OtherRoots(s.roots, q, p);
  }

  /** And a mkdir is harmless. */
  lemma {:induction false} MkdirWithRoots(s: St, p: Path)
    requires RootsExist(s) && CanMkdir(s.k, p)
    ensures Harmless(s, Mkdir(p))
  {
    if p in RootPaths(s.roots) {
      var i := RootAt(s.roots, p);
    }
  }

  // ----- inputs

  /** A file system with two directories below the root directory, or one in the other. */
  function TwoDirs(x: Path, y: Path): Kernel {
    Kernel(map[[""] := 0, x := 1, y := 2], map[], {}, 3, 1, 0)
  }

  lemma {:induction false} TwoDirsOk(x: Path, y: Path)
    requires |x| == 2 && x[0] == "" && NoSlash(x[1]) && |y| >= 2 && NoSlash(Last(y)) && x != y
    requires Parent(y) == [""] || Parent(y) == x
    ensures KernelOk(TwoDirs(x, y))
  {
    assert Parent(x) == [""];
    assert y == Parent(y) + [Last(y)] && x == [""] + [x[1]];
    assert ValidPath(x) && ValidPath(y) && ValidPath([""]);
  }

  lemma {:induction false} SplitTwo(a: string)
    requires NoSlash(a)
    ensures Split("/" + a) == ["", a]
  {
    SplitJoin(["", a]);
    assert Join(["", a]) == "" + "/" + Join([a]);
  }

  lemma {:induction false} SplitThree(a: string, b: string)
    requires NoSlash(a) && NoSlash(b)
    ensures Split("/" + a + "/" + b) == ["", a, b]
  {
    SplitTwo(a);
    SplitChild("/" + a, b);
  }

  /** The system call allows to rename one of the two directories to q. */
  lemma {:induction false} MayRename(x: Path, y: Path, p: Path, q: Path)
    requires (p == x || p == y) && |p| > 1 && |q| > 1 && q != x && q != y && NoSlash(Last(q)) && !(p <= q)
    requires Parent(q) == [""] || Parent(q) == x || Parent(q) == y
    ensures OpOk(TwoDirs(x, y), Rename(p, q))
  {
  }

  lemma {:induction false} TwoRoots(x: Path, y: Path, a: string, b: string)
    requires Split(a) == x && Split(b) == y && x != y
    ensures RootPaths([Some(a), Some(b)]) == [x, y] && DistinctRoots([Some(a), Some(b)])
  {
  }

  /** The state once the cache has been built. */
  function Built(walk: Walk, k: Kernel, roots: seq<Option<string>>): St {
    Reinitialize(walk, St([], roots, k))
  }

  lemma {:induction false} BuiltGood(walk: Walk, k: Kernel, roots: seq<Option<string>>)
    requires Walks(walk) && KernelOk(k) && DistinctRoots(roots)
    ensures var s := Built(walk, k, roots);
            && Good(s) && s.roots == roots && s.k.dirs == k.dirs
            && forall x :: |x| > 1 && x in RootPaths(roots) && x in k.dirs ==> Flagged(s.k, x)
  {
    var s := Built(walk, k, roots);
    ReinitializeAgrees(walk, St([], roots, k));
    forall x | |x| > 1 && x in RootPaths(roots) && x in k.dirs
      ensures Watching(s.k, x)
    {
      RootIsWatched(s, x);
    }
  }

  /** What an operation that the system call allows comes to. */
  ghost predicate Leaves(walk: Walk, s: St, op: FsOp, agrees: bool) {
    && KernelOk(s.k) && OpOk(s.k, op)
    && var f := Processed(walk, s, op); !f.exited && (Agree(f.s) <==> agrees)
  }

  // ----- what happens to roots that are renamed, in every state that agrees

  /** A root comes to lie below another one: its tree is not watched there. */
  lemma {:induction false} BelowRootLeaves(walk: Walk, s: St, p: Path, q: Path, i: nat)
    requires Walks(walk) && Good(s) && RootsExist(s) && CanRename(s.k, p, q) && TopRoot(s, p)
    requires i < |s.roots| && s.roots[i].Some? && Split(s.roots[i].value) != p && Split(s.roots[i].value) <= Parent(q)
    ensures Leaves(walk, s, Rename(p, q), false)
  {
    OpAgrees(walk, s, Rename(p, q));
    HarmlessWithRoots(s, p, q);
    assert Parent(q) in s.k.dirs && UnderRoots(s.roots, Parent(q));
    RootIsWatched(s, p);
    assert WithoutRoot(s.roots, p)[i] == s.roots[i];
  }

  /** A directory that is not watched is renamed, and a root moves along: the slot of that root
      keeps its old path. */
  lemma {:induction false} AlongLeaves(walk: Walk, s: St, p: Path, q: Path, i: nat)
    requires Walks(walk) && Good(s) && RootsExist(s) && CanRename(s.k, p, q) && !Watching(s.k, p)
    requires i < |s.roots| && s.roots[i].Some? && p < Split(s.roots[i].value)
    ensures Leaves(walk, s, Rename(p, q), false)
  {
    OpAgrees(walk, s, Rename(p, q));
    HarmlessWithRoots(s, p, q);
    TreeWatchedFrom(s, p);
    if p in RootPaths(s.roots) {
      RootIsWatched(s, p);
    }
  }

  /** A root below another one is renamed: the cache agrees, and the list keeps an entry for a
      directory that is not there. */
  lemma {:induction false} NestedLeaves(walk: Walk, s: St, p: Path, q: Path)
    requires Walks(walk) && Good(s) && RootsExist(s) && CanRename(s.k, p, q)
    requires p in RootPaths(s.roots) && Watching(s.k, Parent(p))
    ensures Leaves(walk, s, Rename(p, q), true)
    ensures var f := Processed(walk, s, Rename(p, q));
            f.s.roots == s.roots && p in RootPaths(f.s.roots) && p !in f.s.k.dirs
  {
    OpAgrees(walk, s, Rename(p, q));
    HarmlessWithRoots(s, p, q);
    NothingToRevive(s, p, q);
    NotARoot(s.roots, q);
    RenameStep(s, DoRename(s.k, p, q).0, p, q);
    OldPlaceEmpty(s, DoRename(s.k, p, q).0, p, q, p);
  }

  /** It is renamed within the trees, and then back: its watch still asks for IN_MOVE_SELF, and by
      the time that event is processed its slot has the root's path again. The program takes it
      for a root that has moved away, and stops watching it. */
  lemma {:induction false} NestedReturns(walk: Walk, s: St, p: Path, q: Path)
    requires Walks(walk) && Good(s) && RootsExist(s) && CanRename(s.k, p, q)
    requires p in RootPaths(s.roots) && Flagged(s.k, p) && Watching(s.k, Parent(p)) && Watching(s.k, Parent(q))
    ensures Leaves(walk, s, Rename(p, q), true) && Leaves(walk, Processed(walk, s, Rename(p, q)).s, Rename(q, p), false)
  {
    var k, s1 := DoRename(s.k, p, q).0, Processed(walk, s, Rename(p, q)).s;
    NestedLeaves(walk, s, p, q);
    StaysGoodThere(walk, s, p, q);
    NothingToRevive(s, p, q);
    RenameStep(s, k, p, q);
    WithinResult(walk, s, p, q);
    AtNewPlace(s, k, p, q);
    ReturnLeaves(walk, s1, q, p);
  }

  lemma {:induction false} StaysGoodThere(walk: Walk, s: St, p: Path, q: Path)
    requires Walks(walk) && Good(s) && CanRename(s.k, p, q)
    ensures var f := Processed(walk, s, Rename(p, q)); !f.exited && Agree(f.s) ==> Good(f.s)
  {
    OpAgrees(walk, s, Rename(p, q));
  }

  lemma {:induction false} LoudEvents(k: Kernel, p: Path, q: Path) returns (from: Event, to: Event, self: Event)
    requires KernelOk(k) && CanRename(k, p, q) && Flagged(k, p) && Watching(k, Parent(p)) && Watching(k, Parent(q))
    ensures DoOp(k, Rename(p, q)) == (DoRename(k, p, q).0, [from, to, self])
    ensures FromFor(k, p, from) && ToFor(k, q, to) && from.cookie == to.cookie && SelfFor(k, p, self)
  {
    from, to := RenameEvents(k, p, q);
    self := Event(WdOf(k, p), {MOVE_SELF}, 0, "");
    assert [from, to] + [self] == [from, to, self];
  }

  lemma {:induction false} WithinResult(walk: Walk, s: St, p: Path, q: Path)
    requires KernelOk(s.k) && CanRename(s.k, p, q) && Step(s, DoRename(s.k, p, q).0, p, q) && q !in RootPaths(s.roots)
    requires Flagged(s.k, p) && Watching(s.k, Parent(p)) && Watching(s.k, Parent(q))
    ensures var f := Processed(walk, s, Rename(p, q)); f.s.k == DoRename(s.k, p, q).0 && f.s.roots == s.roots
  {
    var from, to, self := LoudEvents(s.k, p, q);
    WithinThenSelf(walk, s, DoRename(s.k, p, q).0, p, q, from, to, self);
  }

  lemma {:induction false} AtNewPlace(s: St, k: Kernel, p: Path, q: Path)
    requires Step(s, k, p, q) && Flagged(s.k, p) && Watching(s.k, Parent(p)) && Watching(s.k, Parent(q))
    ensures Flagged(k, q) && Watching(k, Parent(p)) && Watching(k, Parent(q)) && CanRename(k, q, p)
  {
    assert Moved(p, p, q) == q && k.dirs[q] == s.k.dirs[p];
    Outside(s, k, p, q);
    OldPlaceEmpty(s, k, p, q, p);
  }

  lemma {:induction false} ReturnLeaves(walk: Walk, s: St, p: Path, q: Path)
    requires Walks(walk) && Good(s) && CanRename(s.k, p, q) && q in RootPaths(s.roots)
    requires Flagged(s.k, p) && Watching(s.k, Parent(p)) && Watching(s.k, Parent(q))
    ensures Leaves(walk, s, Rename(p, q), false)
  {
    OpAgrees(walk, s, Rename(p, q));
    RootStaysAbove(s.roots, q);
  }

  /** A directory comes from outside and replaces an empty one in a watched directory: its tree is
      not watched, for its path was cached still when IN_MOVED_TO was processed. */
  lemma {:induction false} ReplaceLeaves(walk: Walk, s: St, p: Path, q: Path)
    requires Walks(walk) && Good(s) && RootsExist(s) && CanReplace(s.k, p, q) && !Watching(s.k, p)
    requires q !in RootPaths(s.roots) && Watching(s.k, Parent(q))
    ensures Leaves(walk, s, Replace(p, q), false)
  {
    OpAgrees(walk, s, Replace(p, q));
    ReplaceWithRoots(s, p, q);
    TreeWatchedFrom(s, p);
    NotARoot(s.roots, q);
    RmdirKernel(s.k, q);
  }

  // ----- and for some directories

  /** The roots /a and /b, side by side. */
  lemma {:induction false} SideBySide(walk: Walk) returns (s: St)
    requires Walks(walk)
    ensures s == Built(walk, TwoDirs(["", "a"], ["", "b"]), [Some("/a"), Some("/b")])
    ensures Good(s) && RootsExist(s) && CanRename(s.k, ["", "a"], ["", "b", "a"]) && TopRoot(s, ["", "a"])
    ensures s.roots == [Some("/a"), Some("/b")] && Split("/b") == ["", "b"]
  {
    var a, b, q: Path := ["", "a"], ["", "b"], ["", "b", "a"];
    SplitTwo("a");
    SplitTwo("b");
    assert Parent(q) == b && Parent(b) == [""] && Parent(a) == [""];
    TwoDirsOk(a, b);
    TwoRoots(a, b, "/a", "/b");
    MayRename(a, b, a, q);
    BuiltGood(walk, TwoDirs(a, b), [Some("/a"), Some("/b")]);
    s := Built(walk, TwoDirs(a, b), [Some("/a"), Some("/b")]);
    TopNotWatched(s, a, b);
    TwoRootsExist(s, a, b);
  }

  /** A root is renamed to below a root: /a to /b/a, with the roots /a and /b. */
  lemma {:induction false} RootBelowRoot(walk: Walk)
    requires Walks(walk)
    ensures Leaves(walk, Built(walk, TwoDirs(["", "a"], ["", "b"]), [Some("/a"), Some("/b")]),
                   Rename(["", "a"], ["", "b", "a"]), false)
  {
    var a, q: Path := ["", "a"], ["", "b", "a"];
    assert Parent(q) == ["", "b"];
    var s := SideBySide(walk);
    BelowRootLeaves(walk, s, a, q, 1);
  }

  lemma {:induction false} TwoRootsExist(s: St, x: Path, y: Path)
    requires Agree(s) && RootPaths(s.roots) == [x, y] && |x| > 1 && |y| > 1 && x in s.k.dirs && y in s.k.dirs
    ensures RootsExist(s) && x in RootPaths(s.roots) && y in RootPaths(s.roots)
  {
    assert RootPaths(s.roots)[0] == x && RootPaths(s.roots)[1] == y;
    forall i | 0 <= i < |s.roots| && s.roots[i].Some?
      ensures Split(s.roots[i].value) in s.k.dirs
    {
      assert RootPaths(s.roots)[i] == Split(s.roots[i].value);
    }
  }

  lemma {:induction false} TopNotWatched(s: St, x: Path, y: Path)
    requires Agree(s) && RootPaths(s.roots) == [x, y] && |x| > 1 && |y| > 1
    ensures !Watching(s.k, [""])
  {
    forall i | 0 <= i < |s.roots| && s.roots[i].Some?
      ensures !(Split(s.roots[i].value) <= [""])
    {
      assert RootPaths(s.roots)[i] == Split(s.roots[i].value);
    }
  }

  /** A directory above a root is renamed: /x to /y, with the root /x/a. */
  lemma {:induction false} RootMovesAlong(walk: Walk)
    requires Walks(walk)
    ensures Leaves(walk, Built(walk, TwoDirs(["", "x"], ["", "x", "a"]), [Some("/x/a")]),
                   Rename(["", "x"], ["", "y"]), false)
  {
    var x, a, q: Path := ["", "x"], ["", "x", "a"], ["", "y"];
    var roots, k := [Some("/x/a")], TwoDirs(x, a);
    SplitThree("x", "a");
    assert "/" + "x" + "/" + "a" == "/x/a";
    assert Parent(a) == x && Parent(q) == [""];
    TwoDirsOk(x, a);
    MayRename(x, a, x, q);
    BuiltGood(walk, k, roots);
    AlongLeaves(walk, Built(walk, k, roots), x, q, 0);
  }

  /** The roots /a and /a/b, and a place for /a/b to go. */
  lemma {:induction false} NestedExample(walk: Walk, q: Path) returns (s: St)
    requires Walks(walk) && |q| > 1 && q != ["", "a"] && q != ["", "a", "b"] && NoSlash(Last(q))
    requires Parent(q) == [""] || Parent(q) == ["", "a"]
    ensures s == Built(walk, TwoDirs(["", "a"], ["", "a", "b"]), [Some("/a"), Some("/a/b")])
    ensures Good(s) && RootsExist(s) && CanRename(s.k, ["", "a", "b"], q) && s.roots == [Some("/a"), Some("/a/b")]
    ensures ["", "a", "b"] in RootPaths(s.roots) && Flagged(s.k, ["", "a", "b"]) && Watching(s.k, ["", "a"])
  {
    var a, b: Path := ["", "a"], ["", "a", "b"];
    var roots, k := [Some("/a"), Some("/a/b")], TwoDirs(a, b);
    SplitTwo("a");
    SplitThree("a", "b");
    assert "/" + "a" + "/" + "b" == "/a/b";
    assert Parent(b) == a;
    TwoDirsOk(a, b);
    TwoRoots(a, b, "/a", "/a/b");
    MayRename(a, b, b, q);
    BuiltGood(walk, k, roots);
    s := Built(walk, k, roots);
    TwoRootsExist(s, a, b);
  }

  /** A root below another one is renamed out of the trees: /a/b to /c. The cache agrees, and the
      entry /a/b of the list is dead. */
  lemma {:induction false} NestedRootMoves(walk: Walk)
    requires Walks(walk)
    ensures var s := Built(walk, TwoDirs(["", "a"], ["", "a", "b"]), [Some("/a"), Some("/a/b")]);
            && Leaves(walk, s, Rename(["", "a", "b"], ["", "c"]), true)
            && var f := Processed(walk, s, Rename(["", "a", "b"], ["", "c"]));
               f.s.roots == s.roots && ["", "a", "b"] !in f.s.k.dirs
  {
    var b, c: Path := ["", "a", "b"], ["", "c"];
    assert Parent(c) == [""] && Parent(b) == ["", "a"];
    var s := NestedExample(walk, c);
    NestedLeaves(walk, s, b, c);
  }

  /** It is renamed within the trees, /a/b to /a/c, and then back. */
  lemma {:induction false} NestedRootReturns(walk: Walk)
    requires Walks(walk)
    ensures var s := Built(walk, TwoDirs(["", "a"], ["", "a", "b"]), [Some("/a"), Some("/a/b")]);
            && Leaves(walk, s, Rename(["", "a", "b"], ["", "a", "c"]), true)
            && var f := Processed(walk, s, Rename(["", "a", "b"], ["", "a", "c"]));
               Leaves(walk, f.s, Rename(["", "a", "c"], ["", "a", "b"]), false)
  {
    var b, d: Path := ["", "a", "b"], ["", "a", "c"];
    assert Parent(d) == ["", "a"] && Parent(b) == ["", "a"];
    var s := NestedExample(walk, d);
    NestedReturns(walk, s, b, d);
  }

  /** /b is renamed onto the empty directory /a/x, with the root /a. */
  lemma {:induction false} ReplaceFromOutside(walk: Walk)
    requires Walks(walk)
    ensures var dirs := map[[""] := 0, ["", "a"] := 1, ["", "a", "x"] := 2, ["", "b"] := 3];
            Leaves(walk, Built(walk, Kernel(dirs, map[], {}, 4, 1, 0), [Some("/a")]),
                   Replace(["", "b"], ["", "a", "x"]), false)
  {
    var a, x, b: Path := ["", "a"], ["", "a", "x"], ["", "b"];
    var k, roots := Kernel(map[[""] := 0, a := 1, x := 2, b := 3], map[], {}, 4, 1, 0), [Some("/a")];
    FourDirs(a, x, b, k);
    SplitTwo("a");
    BuiltGood(walk, k, roots);
    OneRoot(Built(walk, k, roots), a, x, b);
    ReplaceLeaves(walk, Built(walk, k, roots), b, x);
  }

  lemma {:induction false} OneRoot(s: St, a: Path, x: Path, b: Path)
    requires Covers(s) && s.roots == [Some("/a")] && Split("/a") == a && a in s.k.dirs && b in s.k.dirs
    requires |x| > 1 && x != a && Parent(x) == a && !(a <= b)
    ensures RootsExist(s) && x !in RootPaths(s.roots) && Watching(s.k, Parent(x)) && !Watching(s.k, b)
  {
    assert s.roots[0].Some? && Split(s.roots[0].value) <= a;
    assert UnderRoots(s.roots, a) && !UnderRoots(s.roots, b);
    assert RootPaths(s.roots) == [a];
  }

  lemma {:induction false} FourDirs(a: Path, x: Path, b: Path, k: Kernel)
    requires a == ["", "a"] && x == ["", "a", "x"] && b == ["", "b"]
    requires k == Kernel(map[[""] := 0, a := 1, x := 2, b := 3], map[], {}, 4, 1, 0)
    ensures KernelOk(k) && CanReplace(k, b, x) && Parent(x) == a && !(a <= b)
  {
    assert "a"[0] != "b"[0];
    assert a[1] != b[1] && b[1] != x[1];
    assert Parent(a) == [""] && Parent(b) == [""] && Parent(x) == a;
    assert ValidPath([""]) && ValidPath(a) && ValidPath(x) && ValidPath(b);
    assert !(x <= [""]) && !(x <= a) && !(x <= b);
    assert forall d :: d in k.dirs ==> d == [""] || d == a || d == x || d == b;
  }
}
