/**
 Renames of directories whose watch does not ask for IN_MOVE_SELF: within the watched trees,
 out of them, into them, and elsewhere. Each says exactly when the cache agrees afterwards.
 */
module InotifyMoves {
  import opened Wrappers
  import opened PathNames
  import opened InotifySpec
  import opened InotifyProofs
  import opened InotifyAgreement
  import opened InotifyRenames

  lemma {:induction false} TreeWatched(s: St, p: Path)
    requires Covers(s) && |p| > 1 && Watching(s.k, Parent(p))
    ensures forall x :: x in s.k.dirs && p <= x ==> Watching(s.k, x)
  {
    var i :| 0 <= i < |s.roots| && s.roots[i].Some? && Split(s.roots[i].value) <= Parent(p);
    forall x | x in s.k.dirs && p <= x
      ensures Watching(s.k, x)
    {
      assert Split(s.roots[i].value) <= x;
    }
  }

  /** The masks outside the moved tree, when the kernel's are the old ones. */
  lemma {:induction false} MasksOutside(s: St, k: Kernel, p: Path, q: Path, r: Kernel)
    requires Step(s, k, p, q) && r.dirs == k.dirs
    requires forall x :: x in s.k.dirs && !(p <= x) ==>
               (Watching(r, x) <==> Watching(s.k, x)) && (s.k.dirs[x] in r.selfMoves <==> s.k.dirs[x] in k.selfMoves)
    ensures forall x :: x in s.k.dirs && !(p <= x) ==> (Flagged(r, x) <==> Flagged(s.k, x))
  {
    Outside(s, k, p, q);
  }

  // ----- from a watched directory

  /** The pair of events, and then the state whose paths are rewritten. */
  lemma {:induction false} WithinMoves(s: St, k: Kernel, p: Path, q: Path, r: St)
    requires Step(s, k, p, q) && Covers(s) && Watching(s.k, Parent(p)) && r.k == k && InSync(r.slots, k)
    ensures Moves(s, k, p, q, r, true)
  {
    TreeWatched(s, p);
    Carried(s, k, p, q, true);
    Outside(s, k, p, q);
  }

  lemma {:induction false} RenameWithinAgrees(walk: Walk, s: St, k: Kernel, p: Path, q: Path, from: Event, to: Event)
    requires Good(s) && Step(s, k, p, q) && FromFor(s.k, p, from) && ToFor(s.k, q, to) && from.cookie == to.cookie
    ensures Settled(Drain(walk, s.(k := k), [from, to]), s, k, true)
  {
    var s1 := RenameWithin(walk, s, k, p, q, from, to, []);
    assert [from, to] + [] == [from, to];
    DrainEmpty(walk, s1);
    WithinMoves(s, k, p, q, s1);
    MovesExactly(s, k, p, q, s1, true);
  }

  lemma {:induction false} RenameOutAgrees(walk: Walk, s: St, k: Kernel, p: Path, q: Path, from: Event)
    requires Good(s) && Step(s, k, p, q) && FromFor(s.k, p, from) && !Watching(s.k, Parent(q))
    ensures Settled(Drain(walk, s.(k := k), [from]), s, k, !Revives(s.roots, s.k, p, q))
  {
    RenameOut(walk, s, k, p, q, from);
    var r := Drain(walk, s.(k := k), [from]).s;
    Outside(s, k, p, q);
    MasksOutside(s, k, p, q, r.k);
    assert forall y :: y in k.dirs && q <= y ==> !Watching(s.k, y);
    MovesExactly(s, k, p, q, r, false);
  }

  // ----- from a directory that is not watched

  /** No root lies below p where a directory is. */
  ghost predicate NoLiveRootBelow(roots: seq<Option<string>>, k: Kernel, p: Path) {
    forall i :: 0 <= i < |roots| && roots[i].Some? && p < Split(roots[i].value) ==> Split(roots[i].value) !in k.dirs
  }

  lemma {:induction false} TreeUnwatched(s: St, p: Path)
    requires Agree(s) && |p| > 1 && Parent(p) in s.k.dirs && !Watching(s.k, Parent(p))
    requires p !in RootPaths(s.roots) && NoLiveRootBelow(s.roots, s.k, p)
    ensures forall x :: x in s.k.dirs && p <= x ==> !Watching(s.k, x)
  {
    forall x | x in s.k.dirs && p <= x
      ensures !UnderRoots(s.roots, x)
    {
      if UnderRoots(s.roots, x) {
        var i :| 0 <= i < |s.roots| && s.roots[i].Some? && Split(s.roots[i].value) <= x;
        RootAbove(s, p, x, i);
      }
    }
  }

  /** A root above x lies above p, at p or below p. */
  lemma {:induction false} RootAbove(s: St, p: Path, x: Path, i: nat)
    requires KernelOk(s.k) && |p| > 1 && x in s.k.dirs && p <= x
    requires i < |s.roots| && s.roots[i].Some? && Split(s.roots[i].value) <= x
    ensures var r := Split(s.roots[i].value);
            r <= Parent(p) || (r == p && p in RootPaths(s.roots)) || (p < r && r in s.k.dirs)
  {
    var r := Split(s.roots[i].value);
    assert RootPaths(s.roots)[i] == r;
    Comparable(r, p, x);
    PrefixIn(s.k, r, x);
    if |r| == |p| {
      assert r == x[..|r|] == p;
    }
  }

  lemma {:induction false} NothingCarried(s: St, k: Kernel, p: Path, q: Path)
    requires Agree(s) && Step(s, k, p, q) && forall x :: x in s.k.dirs && p <= x ==> !Watching(s.k, x)
    ensures InSync(s.slots, k) && forall y :: y in k.dirs && q <= y ==> !Watching(k, y)
  {
    Carried(s, k, p, q, false);
    Outside(s, k, p, q);
    SameWatches(s.slots, s.k, k);
  }

  lemma {:induction false} RenameInAgrees(walk: Walk, s: St, k: Kernel, p: Path, q: Path, to: Event)
    requires Walks(walk) && Good(s) && Step(s, k, p, q) && ToFor(s.k, q, to)
    requires forall x :: x in s.k.dirs && p <= x ==> !Watching(s.k, x)
    ensures Settled(Drain(walk, s.(k := k), [to]), s, k, true)
  {
    NothingCarried(s, k, p, q);
    Appears(walk, s.(k := k), s.k, q, to);
    var r := Drain(walk, s.(k := k), [to]).s;
    Outside(s, k, p, q);
    ArrivedMoves(s, k, p, q, r);
    MovesExactly(s, k, p, q, r, true);
  }

  lemma {:induction false} ArrivedMoves(s: St, k: Kernel, p: Path, q: Path, r: St)
    requires Step(s, k, p, q) && r.k.dirs == k.dirs && KernelOk(r.k) && InSync(r.slots, r.k)
    requires forall x :: x in k.dirs ==> (Watching(r.k, x) <==> Watching(k, x) || q <= x)
    requires forall x :: x in k.dirs && !(q <= x) ==> SameMask(s.(k := k), r.k, x)
    ensures Moves(s, k, p, q, r, true)
  {
    Outside(s, k, p, q);
    forall x | x in s.k.dirs && !(p <= x)
      ensures Watching(r.k, x) <==> Watching(s.k, x)
      ensures s.k.dirs[x] in r.k.selfMoves <==> s.k.dirs[x] in k.selfMoves
    {
      assert SameMask(s.(k := k), r.k, x);
    }
    MasksOutside(s, k, p, q, r.k);
  }

  lemma {:induction false} RenameElsewhereAgrees(walk: Walk, s: St, k: Kernel, p: Path, q: Path)
    requires Good(s) && Step(s, k, p, q) && !Watching(s.k, Parent(q))
    requires forall x :: x in s.k.dirs && p <= x ==> !Watching(s.k, x)
    ensures Settled(Drain(walk, s.(k := k), []), s, k, !Revives(s.roots, s.k, p, q))
  {
    NothingCarried(s, k, p, q);
    DrainEmpty(walk, s.(k := k));
    Outside(s, k, p, q);
    MovesExactly(s, k, p, q, s.(k := k), false);
  }

  // ----- a root moves along and the program hears nothing, or only of an arrival

  lemma {:induction false} TraverseKeepsSlots(s: St, ps: seq<Path>, j: nat)
    requires LiveSlot(s.slots, j)
    ensures var r := TraverseAll(s, ps); LiveSlot(r.slots, j) && r.slots[j] == s.slots[j]
    decreases |ps|
  {
    if ps != [] {
      TraverseKeepsSlots(TraverseTree(s, ps[0]), ps[1..], j);
    }
  }

  lemma {:induction false} ArrivalKeepsSlots(walk: Walk, s: St, ev: Event, j: nat)
    requires LiveSlot(s.slots, j) && FindWatch(s.slots, ev.wd) >= 0 && ev.wd >= 0 && Arrival(ev)
    ensures var f := Drain(walk, s, [ev]);
            && !f.exited && f.s.roots == s.roots && f.s.k.dirs == s.k.dirs
            && LiveSlot(f.s.slots, j) && f.s.slots[j] == s.slots[j]
  {
    var slot := FindWatch(s.slots, ev.wd);
    var full := Child(s.slots[slot].path, ev.name);
    var s1 := if PathInCache(s.slots, full) then s else WatchSubtree(walk, s, full);
    TraverseKeepsSlots(s, walk(s.k.dirs, Split(full)), j);
    assert ProcessNext(walk, s, [ev], false) == Consumed(s1, 1, []);
    DrainStep(walk, s, [ev], s1, 1, [], []);
    DrainEmpty(walk, s1);
  }

  /** The slot of a root that has moved along keeps its old path. */
  lemma {:induction false} StaleSlot(s: St, k: Kernel, p: Path, q: Path, r: St, x: Path)
    requires Agree(s) && Step(s, k, p, q) && p <= x && Watching(s.k, x) && r.k.dirs == k.dirs
    requires var j := FindWatch(s.slots, WdOf(s.k, x)); 0 <= j < |r.slots| && r.slots[j] == s.slots[j]
    ensures !Agree(r)
  {
    FindsPath(s.slots, s.k, x);
    OldPlaceEmpty(s, k, p, q, x);
    var j := FindWatch(s.slots, WdOf(s.k, x));
    assert LiveSlot(r.slots, j) && !SlotOk(r.slots[j], r.k);
  }

  lemma {:induction false} LiveRoot(s: St, p: Path) returns (x: Path)
    requires Agree(s) && |p| > 1 && !NoLiveRootBelow(s.roots, s.k, p)
    ensures p <= x && Watching(s.k, x)
  {
    var i :| 0 <= i < |s.roots| && s.roots[i].Some? && p < Split(s.roots[i].value) &&
             Split(s.roots[i].value) in s.k.dirs;
    x := Split(s.roots[i].value);
    assert RootPaths(s.roots)[i] == x;
    RootIsWatched(s, x);
  }

  lemma {:induction false} UnseenSlots(walk: Walk, s: St, k: Kernel, q: Path, evs: seq<Event>, j: nat)
    requires KernelOk(s.k) && InSync(s.slots, s.k) && LiveSlot(s.slots, j)
    requires evs == [] || (|evs| == 1 && ToFor(s.k, q, evs[0]))
    ensures var f := Drain(walk, s.(k := k), evs);
            && !f.exited && f.s.roots == s.roots && f.s.k.dirs == k.dirs
            && LiveSlot(f.s.slots, j) && f.s.slots[j] == s.slots[j]
  {
    if evs == [] {
      DrainEmpty(walk, s.(k := k));
    } else {
      FindsPath(s.slots, s.k, Parent(q));
      ArrivalKeepsSlots(walk, s.(k := k), evs[0], j);
      assert evs == [evs[0]];
    }
  }

  /** A directory that is not watched is renamed, with a root below it. */
  lemma {:induction false} RootMovesUnseen(walk: Walk, s: St, k: Kernel, p: Path, q: Path, evs: seq<Event>)
    requires Agree(s) && Step(s, k, p, q) && !NoLiveRootBelow(s.roots, s.k, p)
    requires evs == [] || (|evs| == 1 && ToFor(s.k, q, evs[0]))
    ensures Settled(Drain(walk, s.(k := k), evs), s, k, false)
  {
    var x := LiveRoot(s, p);
    FindsPath(s.slots, s.k, x);
    UnseenSlots(walk, s, k, q, evs, FindWatch(s.slots, WdOf(s.k, x)));
    StaleSlot(s, k, p, q, Drain(walk, s.(k := k), evs).s, x);
  }

  // ----- all of them

  /** The events of a rename. */
  ghost predicate EventsFor(k: Kernel, p: Path, q: Path, from: Event, to: Event, evs: seq<Event>)
    requires |p| > 1 && |q| > 1
  {
    && from.cookie == to.cookie
    && (Watching(k, Parent(p)) ==> FromFor(k, p, from))
    && (Watching(k, Parent(q)) ==> ToFor(k, q, to))
    && evs == if Watching(k, Parent(p)) then if Watching(k, Parent(q)) then [from, to] else [from]
              else if Watching(k, Parent(q)) then [to] else []
  }

  lemma {:induction false} RenameEvents(k: Kernel, p: Path, q: Path) returns (from: Event, to: Event)
    requires KernelOk(k) && CanRename(k, p, q)
    ensures EventsFor(k, p, q, from, to, DoRename(k, p, q).1)
  {
    assert ValidPath(p);
    from := Event(if Watching(k, Parent(p)) then WdOf(k, Parent(p)) else 0, {ISDIR, MOVED_FROM}, k.nextCookie, Last(p));
    to := Event(if Watching(k, Parent(q)) then WdOf(k, Parent(q)) else 0, {ISDIR, MOVED_TO}, k.nextCookie, Last(q));
  }

  /** When the rename of p to q is harmless, if no IN_MOVE_SELF tells of it. */
  ghost predicate QuietlyHarmless(s: St, p: Path, q: Path)
    requires |p| > 1 && |q| > 1
  {
    var from, to := Watching(s.k, Parent(p)), Watching(s.k, Parent(q));
    && (from || NoLiveRootBelow(s.roots, s.k, p))
    && (to || !Revives(s.roots, s.k, p, q))
  }

  lemma {:induction false} RenameAgrees(walk: Walk, s: St, p: Path, q: Path, k: Kernel, evs: seq<Event>)
    requires Walks(walk) && Good(s) && CanRename(s.k, p, q) && (k, evs) == DoRename(s.k, p, q)
    requires !Watching(s.k, Parent(p)) ==> p !in RootPaths(s.roots)
    ensures Settled(Drain(walk, s.(k := k), evs), s, k, QuietlyHarmless(s, p, q))
  {
    RenameStep(s, k, p, q);
    var from, to := RenameEvents(s.k, p, q);
    QuietAgrees(walk, s, p, q, k, evs, from, to);
  }

  lemma {:induction false} QuietAgrees(walk: Walk, s: St, p: Path, q: Path, k: Kernel, evs: seq<Event>, from: Event,
          to: Event)
    requires Walks(walk) && Good(s) && Step(s, k, p, q) && EventsFor(s.k, p, q, from, to, evs)
    requires !Watching(s.k, Parent(p)) ==> p !in RootPaths(s.roots)
    ensures Settled(Drain(walk, s.(k := k), evs), s, k, QuietlyHarmless(s, p, q))
  {
    if Watching(s.k, Parent(p)) {
      SeenAgrees(walk, s, p, q, k, evs, from, to);
    } else {
      UnseenAgrees(walk, s, p, q, k, evs, to);
    }
  }

  lemma {:induction false} SeenAgrees(walk: Walk, s: St, p: Path, q: Path, k: Kernel, evs: seq<Event>, from: Event,
          to: Event)
    requires Walks(walk) && Good(s) && Step(s, k, p, q) && Watching(s.k, Parent(p)) && FromFor(s.k, p, from)
    requires Watching(s.k, Parent(q)) ==> ToFor(s.k, q, to)
    requires from.cookie == to.cookie && evs == if Watching(s.k, Parent(q)) then [from, to] else [from]
    ensures Settled(Drain(walk, s.(k := k), evs), s, k, QuietlyHarmless(s, p, q))
  {
    if Watching(s.k, Parent(q)) {
      RenameWithinAgrees(walk, s, k, p, q, from, to);
    } else {
      RenameOutAgrees(walk, s, k, p, q, from);
    }
  }

  lemma {:induction false} UnseenAgrees(walk: Walk, s: St, p: Path, q: Path, k: Kernel, evs: seq<Event>, to: Event)
    requires Walks(walk) && Good(s) && Step(s, k, p, q) && !Watching(s.k, Parent(p)) && p !in RootPaths(s.roots)
    requires evs == (if Watching(s.k, Parent(q)) then [to] else []) && (Watching(s.k, Parent(q)) ==> ToFor(s.k, q, to))
    ensures Settled(Drain(walk, s.(k := k), evs), s, k, QuietlyHarmless(s, p, q))
  {
    if !NoLiveRootBelow(s.roots, s.k, p) {
      RootMovesUnseen(walk, s, k, p, q, evs);
    } else {
      TreeUnwatched(s, p);
      if Watching(s.k, Parent(q)) {
        RenameInAgrees(walk, s, k, p, q, to);
      } else {
        RenameElsewhereAgrees(walk, s, k, p, q);
      }
    }
  }
}
