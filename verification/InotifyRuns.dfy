/** Whole runs: when the cache agrees with the directory trees after every operation. */
module InotifyRuns {
  import opened Wrappers
  import opened PathNames
  import opened InotifySpec
  import opened InotifyProofs
  import opened InotifyAgreement
  import opened InotifyRenames
  import opened InotifyMoves
  import opened InotifyRoots
  import opened InotifyReplace

  /** One operation by another process, and then the processing of all its events. */
  function Processed(walk: Walk, s: St, op: FsOp): Final
    requires KernelOk(s.k) && OpOk(s.k, op)
  {
    var (k, evs) := DoOp(s.k, op);
    Drain(walk, s.(k := k), evs)
  }

  /** When the cache agrees after the operation. A directory may not come to lie at the place of a
      root that is gone, unless its tree is watched there or the cache is rebuilt; a root that is
      not below another one may not come to lie below one; no root may move along with a directory
      that is not watched; and a directory whose watch asks for IN_MOVE_SELF may not be renamed,
      within the trees, to the place of a root that is gone. */
  ghost predicate Harmless(s: St, op: FsOp) {
    match op
    case Mkdir(p) => |p| > 1 ==> p in RootPaths(s.roots) ==> Watching(s.k, Parent(p))
    case Rmdir(p) => true
    case Rename(p, q) =>
      |p| > 1 && |q| > 1 ==> if Flagged(s.k, p) then LoudlyHarmless(s, p, q) else QuietlyHarmless(s, p, q)
    case Replace(p, q) => |p| > 1 && CanRmdir(s.k, q) ==> ReplaceHarmless(Freed(s, q), p, q)
  }

  /** The roots that are still monitored after the operation. */
  ghost function RootsAfter(s: St, op: FsOp): seq<Option<string>> {
    match op
    case Mkdir(p) => s.roots
    case Rmdir(p) => if Watching(s.k, p) then WithoutRoot(s.roots, p) else s.roots
    case Rename(p, q) => if |p| > 1 && |q| > 1 && Flagged(s.k, p) then RootsAfterMove(s, p, q) else s.roots
    case Replace(p, q) => if |p| > 1 && CanRmdir(s.k, q) then RootsAfterReplace(s, Freed(s, q), p, q) else s.roots
  }

  lemma {:induction false} RmdirOutcome(walk: Walk, s: St, p: Path, k: Kernel, evs: seq<Event>)
    requires Good(s) && CanRmdir(s.k, p) && (k, evs) == DoRmdir(s.k, p)
    ensures Ends(Drain(walk, s.(k := k), evs), s, k,
                 if Watching(s.k, p) then WithoutRoot(s.roots, p) else s.roots, true)
  {
    if p in RootPaths(s.roots) {
      RootIsWatched(s, p);
      RmdirRootAgrees(walk, s, p, k, evs);
    } else {
      NotARoot(s.roots, p);
      RmdirAgrees(walk, s, p, k, evs);
    }
  }

  lemma {:induction false} RenameOutcome(walk: Walk, s: St, p: Path, q: Path, k: Kernel, evs: seq<Event>)
    requires Walks(walk) && Good(s) && CanRename(s.k, p, q) && (k, evs) == DoOp(s.k, Rename(p, q))
    ensures Ends(Drain(walk, s.(k := k), evs), s, k, RootsAfter(s, Rename(p, q)), Harmless(s, Rename(p, q)))
  {
    var moved := DoRename(s.k, p, q).1;
    if Flagged(s.k, p) {
      LoudOutcome(walk, s, p, q, k, moved);
    } else {
      assert moved + [] == moved;
      QuietOutcome(walk, s, p, q, k, moved);
    }
  }

  lemma {:induction false} LoudOutcome(walk: Walk, s: St, p: Path, q: Path, k: Kernel, moved: seq<Event>)
    requires Walks(walk) && Good(s) && CanRename(s.k, p, q) && (k, moved) == DoRename(s.k, p, q) && Flagged(s.k, p)
    ensures Ends(Drain(walk, s.(k := k), moved + MoveSelf(s.k, p)), s, k, RootsAfterMove(s, p, q),
                 LoudlyHarmless(s, p, q))
  {
    RenameStep(s, k, p, q);
    var from, to := RenameEvents(s.k, p, q);
    var self := Event(WdOf(s.k, p), {MOVE_SELF}, 0, "");
    FlaggedAgrees(walk, s, k, p, q, moved, from, to, self);
  }

  lemma {:induction false} QuietOutcome(walk: Walk, s: St, p: Path, q: Path, k: Kernel, moved: seq<Event>)
    requires Walks(walk) && Good(s) && CanRename(s.k, p, q) && (k, moved) == DoRename(s.k, p, q) && !Flagged(s.k, p)
    ensures Ends(Drain(walk, s.(k := k), moved), s, k, s.roots, QuietlyHarmless(s, p, q))
  {
    if !Watching(s.k, Parent(p)) {
      UnflaggedIsNoTop(s, p);
    }
    RenameAgrees(walk, s, p, q, k, moved);
  }

  lemma {:induction false} UnflaggedIsNoTop(s: St, p: Path)
    requires Good(s) && |p| > 1 && p in s.k.dirs && !Flagged(s.k, p) && !Watching(s.k, Parent(p))
    ensures p !in RootPaths(s.roots)
  {
    if p in RootPaths(s.roots) {
      RootIsWatched(s, p);
    }
  }

  lemma {:induction false} ReplaceOutcome(walk: Walk, s: St, p: Path, q: Path, k: Kernel, evs: seq<Event>)
    requires Walks(walk) && Good(s) && CanReplace(s.k, p, q) && (k, evs) == DoReplace(s.k, p, q)
    ensures Ends(Drain(walk, s.(k := k), evs), s, k, RootsAfterReplace(s, Freed(s, q), p, q),
                 ReplaceHarmless(Freed(s, q), p, q))
  {
    if Watching(s.k, q) {
      var j := Prepared(s, p, q, k);
      StaleOutcome(walk, s, Freed(s, q), k, p, q, j, WdOf(s.k, q), DoRename(Freed(s, q).k, p, q).1);
    } else {
      PreparedFresh(s, p, q);
      FreshOutcome(walk, s, Freed(s, q), p, q, k, evs);
    }
  }

  lemma {:induction false} Prepared(s: St, p: Path, q: Path, k: Kernel) returns (j: nat)
    requires Good(s) && CanReplace(s.k, p, q) && Watching(s.k, q) && k == DoReplace(s.k, p, q).0
    ensures var t := Freed(s, q);
            && Good(t) && Replacing(s, t, k, p, q, j, WdOf(s.k, q)) && CanRename(t.k, p, q)
            && (!Flagged(t.k, p) && !Watching(t.k, Parent(p)) ==> p !in RootPaths(t.roots))
    ensures UnderRoots(s.roots, q)
  {
    FreedPlace(s.k, p, q);
    j := Replaces(s, p, q, k);
    NoTopUnflagged(Freed(s, q), p);
  }

  lemma {:induction false} PreparedFresh(s: St, p: Path, q: Path)
    requires Good(s) && CanReplace(s.k, p, q) && !Watching(s.k, q)
    ensures var t := Freed(s, q);
            Good(t) && CanRename(t.k, p, q) && !Watching(t.k, Parent(q)) && t == s.(k := DoRmdir(s.k, q).0)
  {
    FreedGood(s, q);
    FreedPlace(s.k, p, q);
    UnwatchedIsFree(s, q);
  }

  /** The old directory was not watched: the same as a rename onto nothing. */
  lemma {:induction false} FreshOutcome(walk: Walk, s: St, t: St, p: Path, q: Path, k: Kernel, evs: seq<Event>)
    requires Walks(walk) && Good(t) && CanRename(t.k, p, q) && !Watching(t.k, Parent(q)) && t == s.(k := t.k)
    requires k == DoRename(t.k, p, q).0 && evs == DoRename(t.k, p, q).1 + MoveSelf(t.k, p) + []
    ensures Ends(Drain(walk, s.(k := k), evs), s, k, RootsAfterReplace(s, t, p, q), ReplaceHarmless(t, p, q))
  {
    assert evs == DoOp(t.k, Rename(p, q)).1;
    RenameOutcome(walk, t, p, q, k, evs);
    FreshHarmless(t, p, q);
  }

  lemma {:induction false} UnwatchedIsFree(s: St, q: Path)
    requires Good(s) && CanRmdir(s.k, q) && !Watching(s.k, q)
    ensures Freed(s, q) == s.(k := DoRmdir(s.k, q).0) && !Watching(Freed(s, q).k, Parent(q))
  {
    if q in RootPaths(s.roots) {
      RootIsWatched(s, q);
    }
    NotARoot(s.roots, q);
    TreeWatchedFrom(s, q);
  }

  lemma {:induction false} TreeWatchedFrom(s: St, p: Path)
    requires Covers(s) && |p| > 1 && p in s.k.dirs && !Watching(s.k, p)
    ensures !Watching(s.k, Parent(p))
  {
    if Watching(s.k, Parent(p)) {
      TreeWatched(s, p);
    }
  }

  lemma {:induction false} FreshHarmless(t: St, p: Path, q: Path)
    requires Good(t) && CanRename(t.k, p, q) && !Watching(t.k, Parent(q))
    ensures Harmless(t, Rename(p, q)) <==> ReplaceHarmless(t, p, q)
    ensures RootsAfter(t, Rename(p, q)) == RootsAfterReplace(t, t, p, q)
  {
    assert Parent(p) in t.k.dirs;
    if Flagged(t.k, p) && !Watching(t.k, Parent(p)) {
      TopIsRoot(t, p);
    }
    NoTopUnflagged(t, p);
  }

  lemma {:induction false} InOrder(a: seq<Event>, b: seq<Event>, c: seq<Event>)
    ensures a + b + c == a + (b + c) && (b == [] ==> a + b + c == a + c)
  {
  }

  /** The old directory was watched: its slot is there until its own events are processed. */
  lemma {:induction false} StaleOutcome(walk: Walk, s: St, t: St, k: Kernel, p: Path, q: Path, j: nat, wd: int,
          moved: seq<Event>)
    requires Walks(walk) && Good(t) && Replacing(s, t, k, p, q, j, wd) && UnderRoots(s.roots, q)
    requires CanRename(t.k, p, q) && moved == DoRename(t.k, p, q).1
    requires !Flagged(t.k, p) && !Watching(t.k, Parent(p)) ==> p !in RootPaths(t.roots)
    ensures Ends(Drain(walk, s.(k := k), moved + MoveSelf(t.k, p) + Gone(wd)), s, k, RootsAfterReplace(s, t, p, q),
                 ReplaceHarmless(t, p, q))
  {
    var from, to := RenameEvents(t.k, p, q);
    InOrder(moved, MoveSelf(t.k, p), Gone(wd));
    if Flagged(t.k, p) {
      var self := Event(WdOf(t.k, p), {MOVE_SELF}, 0, "");
      LoudReplace(walk, s, t, k, p, q, j, wd, from, to, self, moved);
    } else {
      QuietReplace(walk, s, t, k, p, q, j, wd, from, to, moved);
    }
  }

  lemma {:induction false} NoTopUnflagged(s: St, p: Path)
    requires Good(s) && |p| > 1 && p in s.k.dirs
    ensures !Flagged(s.k, p) && !Watching(s.k, Parent(p)) ==> p !in RootPaths(s.roots)
  {
    if !Flagged(s.k, p) && !Watching(s.k, Parent(p)) {
      UnflaggedIsNoTop(s, p);
    }
  }

  /** The program exits exactly when it has lost its last root, and otherwise agrees with the
      directories exactly if the operation is harmless. */
  lemma {:induction false} OpAgrees(walk: Walk, s: St, op: FsOp)
    requires Walks(walk) && Good(s) && OpOk(s.k, op)
    ensures Ends(Processed(walk, s, op), s, DoOp(s.k, op).0, RootsAfter(s, op), Harmless(s, op))
  {
    var (k, evs) := DoOp(s.k, op);
    match op
    case Mkdir(p) => MkdirExactly(walk, s, p, k, evs);
    case Rmdir(p) => RmdirOutcome(walk, s, p, k, evs);
    case Rename(p, q) => RenameOutcome(walk, s, p, q, k, evs);
    case Replace(p, q) => ReplaceOutcome(walk, s, p, q, k, evs);
  }

  /** A run: each operation is possible where it happens, and the program has not exited. */
  ghost predicate Run(walk: Walk, ss: seq<St>, ops: seq<FsOp>) {
    && |ss| == |ops| + 1
    && forall i :: 0 <= i < |ops| ==>
         && KernelOk(ss[i].k) && OpOk(ss[i].k, ops[i])
         && Processed(walk, ss[i], ops[i]) == Final(ss[i + 1], false)
  }

  lemma {:induction false} AgreesNext(walk: Walk, ss: seq<St>, ops: seq<FsOp>, i: nat)
    requires Walks(walk) && Run(walk, ss, ops) && i < |ops| && Good(ss[i])
    ensures Agree(ss[i + 1]) <==> Harmless(ss[i], ops[i])
    ensures Agree(ss[i + 1]) ==> Good(ss[i + 1])
  {
    OpAgrees(walk, ss[i], ops[i]);
  }

  lemma {:induction false} AgreeingStaysGood(walk: Walk, ss: seq<St>, ops: seq<FsOp>, n: nat)
    requires Walks(walk) && Run(walk, ss, ops) && Good(ss[0]) && n <= |ops|
    requires forall i :: 0 <= i <= n ==> Agree(ss[i])
    ensures Good(ss[n])
    decreases n
  {
    if n > 0 {
      AgreeingStaysGood(walk, ss, ops, n - 1);
      AgreesNext(walk, ss, ops, n - 1);
    }
  }

  lemma {:induction false} HarmlessStaysGood(walk: Walk, ss: seq<St>, ops: seq<FsOp>, n: nat)
    requires Walks(walk) && Run(walk, ss, ops) && Good(ss[0]) && n <= |ops|
    requires forall i :: 0 <= i < n ==> Harmless(ss[i], ops[i])
    ensures Good(ss[n])
    decreases n
  {
    if n > 0 {
      HarmlessStaysGood(walk, ss, ops, n - 1);
      AgreesNext(walk, ss, ops, n - 1);
    }
  }

  lemma {:induction false} HarmlessIfAgreeing(walk: Walk, ss: seq<St>, ops: seq<FsOp>, n: nat, i: nat)
    requires Walks(walk) && Run(walk, ss, ops) && Good(ss[0]) && i < n <= |ops|
    requires forall j :: 0 <= j <= n ==> Agree(ss[j])
    ensures Harmless(ss[i], ops[i])
  {
    AgreeingStaysGood(walk, ss, ops, i);
    AgreesNext(walk, ss, ops, i);
  }

  /** Over every run the cache agrees with the directories all the time, exactly if every operation
      is harmless. */
  lemma {:induction false} AgreesExactly(walk: Walk, ss: seq<St>, ops: seq<FsOp>, n: nat)
    requires Walks(walk) && Run(walk, ss, ops) && Good(ss[0]) && n <= |ops|
    ensures (forall i :: 0 <= i <= n ==> Agree(ss[i])) <==> (forall i :: 0 <= i < n ==> Harmless(ss[i], ops[i]))
  {
    if forall i :: 0 <= i < n ==> Harmless(ss[i], ops[i]) {
      forall i | 0 <= i <= n
        ensures Agree(ss[i])
      {
        HarmlessStaysGood(walk, ss, ops, i);
      }
    }
    if forall i :: 0 <= i <= n ==> Agree(ss[i]) {
      forall i | 0 <= i < n
        ensures Harmless(ss[i], ops[i])
      {
        HarmlessIfAgreeing(walk, ss, ops, n, i);
      }
    }
  }

  /** From the initial build of the cache, over every sequence of harmless operations: the live
      slots are exactly the kernel's (wd, path) pairs, their descriptors are distinct, and exactly
      the directories under the roots still monitored are watched. */
  lemma {:induction false} CacheAgreesAlways(walk: Walk, s: St, ss: seq<St>, ops: seq<FsOp>, n: nat)
    requires Walks(walk) && KernelOk(s.k) && DistinctRoots(s.roots)
    requires Run(walk, ss, ops) && ss[0] == Reinitialize(walk, s) && n <= |ops|
    requires forall i :: 0 <= i < n ==> Harmless(ss[i], ops[i])
    ensures CachePairs(ss[n].slots) == KernelPairs(ss[n].k) && Distinct(ss[n].slots)
    ensures forall p :: p in ss[n].k.dirs ==> (Watching(ss[n].k, p) <==> UnderRoots(ss[n].roots, p))
  {
    ReinitializeAgrees(walk, s);
    HarmlessStaysGood(walk, ss, ops, n);
    SamePairs(ss[n].slots, ss[n].k);
  }
}
