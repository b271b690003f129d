/**
 inotify_dtree.c in its own form: the watch cache is an array that is searched, reused and
 grown in place, and the event loop shuffles its read buffer. Every method is tied to the
 function it implements; the event loop is tied to `Drain`, which has no read boundaries.
 */
module InotifyTree {
  import opened Wrappers
  import opened PathNames
  import opened InotifySpec

  /** With the next event at hand, or none to come, a step does not depend on how much more
      of the stream has been read. */
  lemma {:induction false} ReadBoundary(walk: Walk, s: St, buf: seq<Event>, rest: seq<Event>, firstTry: bool)
    requires buf != [] && (firstTry || |buf| > 1 || rest == [])
    requires ProcessNext(walk, s, buf, firstTry) != Hanging
    ensures ProcessNext(walk, s, buf + rest, false) == ProcessNext(walk, s, buf, firstTry)
  {
    var all := buf + rest;
    assert all[0] == buf[0] && (|buf| > 1 ==> all[1] == buf[1]);
    if rest == [] {
      assert all == buf;
    }
    var slot := FindWatch(s.slots, buf[0].wd);
    if slot >= 0 {
      assert ProcessMovedFrom(walk, s, slot, buf, firstTry) != Hanging ==>
          ProcessMovedFrom(walk, s, slot, all, false) == ProcessMovedFrom(walk, s, slot, buf, firstTry);
    }
  }

  /** Only an IN_MOVED_FROM that ends the buffer hangs, and only the first time. */
  lemma {:induction false} HangingIsLast(walk: Walk, s: St, buf: seq<Event>, firstTry: bool)
    requires buf != [] && ProcessNext(walk, s, buf, firstTry) == Hanging
    ensures |buf| == 1 && firstTry
  {
  }

  /** Fewer events to act on, or as many and fewer in all. */
  ghost predicate Advanced(before: seq<Event>, after: seq<Event>) {
    Live(after) < Live(before) || (Live(after) == Live(before) && |after| < |before|)
  }

  lemma {:induction false} NoneLeft(q: seq<Event>)
    requires q != []
    ensures Advanced(q, [])
  {
    Progress(q, |q|, []);
    assert q[|q|..] + [] == [];
  }

  /** One step of the event loop is one step of the undivided stream buf + q. */
  lemma {:induction false} TurnConsumes(walk: Walk, s: St, buf: seq<Event>, q: seq<Event>, o: Outcome)
    requires buf != [] && o == ProcessNext(walk, s, buf + q, false) && o.Consumed? && o.n <= |buf|
    ensures Drain(walk, s, buf + q) == Drain(walk, o.s, buf[o.n..] + (q + o.sent))
    ensures Advanced(buf + q, buf[o.n..] + (q + o.sent))
  {
    var all, rest := buf + q, buf[o.n..] + (q + o.sent);
    assert all[o.n..] + o.sent == rest;
    DrainStep(walk, s, all, o.s, o.n, o.sent, rest);
    Progress(all, o.n, o.sent);
  }

  class DirTree {
    const walk: Walk
    var wlCache: array<Watch>               // cacheSize is its length
    var rootDirPaths: array<Option<string>>
    var k: Kernel                           // the kernel's side
    var queue: seq<Event>                   // events not read yet
    var exited: bool

    ghost function State(): St
      reads this, wlCache, rootDirPaths
    {
      St(wlCache[..], rootDirPaths[..], k)
    }

    constructor (walk: Walk, roots: seq<string>, k: Kernel)
      ensures this.walk == walk && !exited && queue == [] && fresh(wlCache) && fresh(rootDirPaths)
      ensures State() == InotifySpec.Reinitialize(walk,
                           St([], seq(|roots|, i requires 0 <= i < |roots| => Some(roots[i])), k))
    {
      this.walk := walk;
      this.k := k;
      wlCache := new Watch[0];
      rootDirPaths := new Option<string>[|roots|](i requires 0 <= i < |roots| => Some(roots[i]));
      queue := [];
      exited := false;
      new;
      assert rootDirPaths[..] == seq(|roots|, i requires 0 <= i < |roots| => Some(roots[i]));
      Reinitialize();
    }

    // ----- the cache

    method FindWatch(wd: int) returns (r: int)
      ensures r == InotifySpec.FindWatch(wlCache[..], wd)
    {
      var j := 0;
      while j < wlCache.Length
        invariant j <= wlCache.Length
        invariant FindFrom(wlCache[..], wd, 0) == FindFrom(wlCache[..], wd, j)
      {
        if wlCache[j].wd == wd {
          return j;
        }
        j := j + 1;
      }
      return -1;
    }

    method MarkCacheSlotEmpty(slot: nat)
      requires slot < wlCache.Length
      modifies wlCache
      ensures wlCache[..] == old(wlCache[..])[slot := EMPTY_SLOT]
    {
      wlCache[slot] := Watch(-1, "");
    }

    /** A free slot; if there is none, the array grows by 200 free ones. */
    method FindEmptyCacheSlot() returns (slot: nat)
      modifies this`wlCache
      ensures wlCache == old(wlCache) || fresh(wlCache)
      ensures slot < wlCache.Length
      ensures var j := InotifySpec.FindWatch(old(wlCache[..]), -1);
              if j >= 0 then slot == j && wlCache == old(wlCache)
              else slot == old(wlCache.Length) && wlCache[..] == old(wlCache[..]) + EmptySlots(200)
    {
      var j := FindWatch(-1);
      if j >= 0 {
        return j;
      }
      slot := wlCache.Length;
      var bigger := new Watch[slot + ALLOC_INCR](_ => Watch(-1, ""));
      forall i | 0 <= i < slot {
        bigger[i] := wlCache[i];
      }
      assert bigger[..] == wlCache[..] + EmptySlots(ALLOC_INCR);
      wlCache := bigger;
    }

    method AddWatchToCache(wd: int, path: string)
      modifies this`wlCache, wlCache
      ensures wlCache == old(wlCache) || fresh(wlCache)
      ensures wlCache[..] == AddToCache(old(wlCache[..]), wd, path)
    {
      var slot := FindEmptyCacheSlot();
      wlCache[slot] := Watch(wd, path);
    }

    method PathnameInCache(path: string) returns (r: bool)
      ensures r == PathInCache(wlCache[..], path)
    {
      var j := 0;
      while j < wlCache.Length
        invariant j <= wlCache.Length
        invariant forall i :: 0 <= i < j ==> !(wlCache[i].wd >= 0 && wlCache[i].path == path)
      {
        if wlCache[j].wd >= 0 && wlCache[j].path == path {
          assert wlCache[..][j].path == path;
          return true;
        }
        j := j + 1;
      }
      return false;
    }

    method IsRootDirPath(path: string) returns (r: bool)
      ensures r == IsRoot(rootDirPaths[..], path)
    {
      var j := 0;
      while j < rootDirPaths.Length
        invariant j <= rootDirPaths.Length
        invariant forall i :: 0 <= i < j ==> rootDirPaths[i] != Some(path)
      {
        if rootDirPaths[j] == Some(path) {
          assert rootDirPaths[..][j] == Some(path);
          return true;
        }
        j := j + 1;
      }
      return false;
    }

    /** zapRootDirPath of a path that is a root; the program exits with its last root. */
    method ZapRootDirPath(path: string)
      requires IsRoot(rootDirPaths[..], path)
      modifies this`exited, rootDirPaths
      ensures rootDirPaths[..] == ZapRoot(old(rootDirPaths[..]), path)
      ensures exited == (old(exited) || NoRoots(rootDirPaths[..]))
    {
      ghost var roots := rootDirPaths[..];
      var j := 0;
      while j < rootDirPaths.Length && rootDirPaths[j] != Some(path)
        invariant j <= rootDirPaths.Length && rootDirPaths[..] == roots
        invariant FindRoot(roots, path, 0) == FindRoot(roots, path, j)
        invariant forall i :: 0 <= i < j ==> roots[i] != Some(path)
      {
        j := j + 1;
      }
      assert j < rootDirPaths.Length;
      rootDirPaths[j] := None;
      var left := false;
      for i := 0 to rootDirPaths.Length
        invariant left <==> exists x :: 0 <= x < i && rootDirPaths[x].Some?
      {
        left := left || rootDirPaths[i].Some?;
      }
      if !left {
        exited := true;
      }
    }

    // ----- watching

    method TraverseTree(p: Path)
      modifies this`wlCache, this`k, wlCache
      ensures wlCache == old(wlCache) || fresh(wlCache)
      ensures State() == InotifySpec.TraverseTree(old(State()), p)
    {
      if p == [] || p !in k.dirs {
        return;  // ENOENT
      }
      var isRoot := IsRootDirPath(Join(p));
      var (wd, k') := AddWatch(k, k.dirs[p], isRoot);
      k := k';
      var slot := FindWatch(wd);
      if slot >= 0 {
        return;
      }
      AddWatchToCache(wd, Join(p));
    }

    /** watchDir: nftw calls traverseTree for each directory. */
    method WatchSubtree(path: string)
      modifies this`wlCache, this`k, wlCache
      ensures wlCache == old(wlCache) || fresh(wlCache)
      ensures State() == InotifySpec.WatchSubtree(walk, old(State()), path)
    {
      var ps := walk(k.dirs, Split(path));
      ghost var goal := TraverseAll(State(), ps);
      var i := 0;
      while i < |ps|
        invariant i <= |ps| && (wlCache == old(wlCache) || fresh(wlCache))
        invariant rootDirPaths == old(rootDirPaths) && rootDirPaths[..] == old(rootDirPaths[..])
        invariant goal == TraverseAll(State(), ps[i..])
      {
        assert ps[i..][1..] == ps[i + 1..];
        TraverseTree(ps[i]);
        i := i + 1;
      }
    }

    /** A new inotify instance: its watches and queue are empty. */
    method Reinitialize()
      modifies this`wlCache, this`k, this`queue, wlCache
      ensures wlCache == old(wlCache) || fresh(wlCache)
      ensures queue == [] && State() == InotifySpec.Reinitialize(walk, old(State()))
    {
      wlCache := new Watch[0];
      k := k.(wds := map[], selfMoves := {}, nextWd := 1);
      queue := [];
      ghost var goal := WatchRoots(walk, State(), 0);
      assert wlCache[..] == [];
      var j := 0;
      while j < rootDirPaths.Length
        invariant j <= rootDirPaths.Length && fresh(wlCache) && queue == []
        invariant rootDirPaths == old(rootDirPaths) && rootDirPaths[..] == old(rootDirPaths[..])
        invariant goal == WatchRoots(walk, State(), j)
      {
        if rootDirPaths[j].Some? {
          WatchSubtree(rootDirPaths[j].value);
        }
        j := j + 1;
      }
    }

    // ----- renames

    method RewriteCachedPaths(oldPrefix: string, oldName: string, newPrefix: string, newName: string)
      modifies wlCache
      ensures wlCache[..] == RewritePaths(old(wlCache[..]), Child(oldPrefix, oldName), Child(newPrefix, newName))
    {
      var full := oldPrefix + "/" + oldName;
      var to := newPrefix + "/" + newName;
      ghost var was := wlCache[..];
      var j := 0;
      while j < wlCache.Length
        invariant j <= wlCache.Length
        invariant forall i :: 0 <= i < j ==> wlCache[i] == RewriteSlot(was[i], full, to)
        invariant forall i :: j <= i < wlCache.Length ==> wlCache[i] == was[i]
      {
        var path := wlCache[j].path;
        if full <= path && (|path| == |full| || path[|full|] == '/') {
          wlCache[j] := wlCache[j].(path := to + path[|full|..]);
        }
        j := j + 1;
      }
      assert wlCache[..] == RewritePaths(was, full, to);
    }

    /** zapSubtree: -1 when an inotify_rm_watch call failed. */
    method ZapSubtree(path: string) returns (cnt: int)
      modifies this`k, this`queue, wlCache
      ensures var z := ZapFrom(old(State()), path, 0);
              State() == z.s && cnt == z.count && queue == old(queue) + z.sent
    {
      ghost var goal := ZapFrom(State(), path, 0);
      cnt := 0;
      var j := 0;
      while j < wlCache.Length
        invariant j <= wlCache.Length && cnt >= 0 && rootDirPaths == old(rootDirPaths)
        invariant wlCache == old(wlCache) && rootDirPaths[..] == old(rootDirPaths[..])
        invariant var z := ZapFrom(State(), path, j);
                  && goal.s == z.s && goal.count == (if z.count == -1 then -1 else cnt + z.count)
                  && old(queue) + goal.sent == queue + z.sent
      {
        if wlCache[j].wd >= 0 && path <= wlCache[j].path
           && (|wlCache[j].path| == |path| || wlCache[j].path[|path|] == '/') {
          match RmWatch(k, wlCache[j].wd)
          case None =>
            cnt := -1;
            return;
          case Some(k') =>
            k := k';
            queue := queue + [IgnoredEvent(wlCache[j].wd)];
            MarkCacheSlotEmpty(j);
            cnt := cnt + 1;
        }
        j := j + 1;
      }
    }

    // ----- events

    /** What one call of processNextInotifyEvent leaves, by the outcome it implements. The
        result is the number of events consumed, or -1 for a hanging IN_MOVED_FROM. */
    ghost predicate Did(o: Outcome, q: seq<Event>, s: St, buf: seq<Event>, n: int)
      reads this, wlCache, rootDirPaths
    {
      match o
      case Consumed(s', m, sent) => State() == s' && n == m && queue == q + sent && !exited
      case Hanging => State() == s && n == -1 && queue == q && !exited
      case Rebuilt(s') => State() == s' && n == |buf| && queue == [] && !exited
      case Exited(s') => State() == s' && n == |buf| && exited
    }

    method ProcessMovedFrom(slot: nat, buf: seq<Event>, firstTry: bool) returns (n: int)
      requires slot < wlCache.Length && buf != [] && !exited
      modifies this`wlCache, this`k, this`queue, wlCache
      ensures wlCache == old(wlCache) || fresh(wlCache)
      ensures Did(InotifySpec.ProcessMovedFrom(walk, old(State()), slot, buf, firstTry),
                  old(queue), old(State()), buf, n)
    {
      var ev := buf[0];
      var full := Child(wlCache[slot].path, ev.name);
      if |buf| > 1 && MOVED_TO in buf[1].mask && buf[1].cookie == ev.cookie {
        var next := FindWatch(buf[1].wd);
        if next == -1 {
          Reinitialize();
          return |buf|;
        }
        RewriteCachedPaths(wlCache[slot].path, ev.name, wlCache[next].path, buf[1].name);
        return 2;
      } else if |buf| > 1 || !firstTry {
        var cnt := ZapSubtree(full);
        if cnt == -1 {
          Reinitialize();
          return |buf|;
        }
        return 1;
      } else {
        return -1;  // the caller should read more
      }
    }

    method ProcessNextInotifyEvent(buf: seq<Event>, firstTry: bool) returns (n: int)
      requires buf != [] && !exited
      modifies this`wlCache, this`k, this`queue, this`exited, wlCache, rootDirPaths
      ensures wlCache == old(wlCache) || fresh(wlCache)
      ensures Did(ProcessNext(walk, old(State()), buf, firstTry), old(queue), old(State()), buf, n)
    {
      var ev := buf[0];
      if ev.wd == -1 || IGNORED in ev.mask {
        if Q_OVERFLOW in ev.mask {
          Reinitialize();
          return |buf|;
        }
        return 1;
      }
      var slot := FindWatch(ev.wd);
      if slot == -1 {
        Reinitialize();
        return |buf|;
      }
      var path := wlCache[slot].path;
      if ISDIR in ev.mask && (CREATE in ev.mask || MOVED_TO in ev.mask) {
        var cached := PathnameInCache(Child(path, ev.name));
        if !cached {
          WatchSubtree(Child(path, ev.name));
        }
        return 1;
      } else if DELETE_SELF in ev.mask {
        var root := IsRootDirPath(path);
        if root {
          ZapRootDirPath(path);
          if exited {
            return |buf|;
          }
        }
        MarkCacheSlotEmpty(slot);
        return 1;
      } else if MOVED_FROM in ev.mask && ISDIR in ev.mask {
        n := ProcessMovedFrom(slot, buf, firstTry);
        return;
      } else if Q_OVERFLOW in ev.mask {
        Reinitialize();
        return |buf|;
      } else if UNMOUNT in ev.mask {
        MarkCacheSlotEmpty(slot);
        return 1;
      }
      var root := IsRootDirPath(path);
      if MOVE_SELF in ev.mask && root {
        n := ProcessRootMoved(path, buf);
        return;
      }
      return 1;
    }

    method ProcessRootMoved(path: string, buf: seq<Event>) returns (n: int)
      requires buf != [] && !exited && IsRoot(rootDirPaths[..], path)
      modifies this`wlCache, this`k, this`queue, this`exited, wlCache, rootDirPaths
      ensures wlCache == old(wlCache) || fresh(wlCache)
      ensures var s1 := old(State()).(roots := ZapRoot(old(State()).roots, path));
              var z := ZapFrom(s1, path, 0);
              Did(if NoRoots(s1.roots) then Exited(s1)
                  else if z.count == -1 then Rebuilt(InotifySpec.Reinitialize(walk, z.s))
                  else Consumed(z.s, 1, z.sent), old(queue), old(State()), buf, n)
    {
      ZapRootDirPath(path);
      if exited {
        return |buf|;
      }
      var cnt := ZapSubtree(path);
      if cnt == -1 {
        Reinitialize();
        return |buf|;
      }
      return 1;
    }

    /** read(): some events of the queue, at least one, as many as fit. */
    method Read() returns (evs: seq<Event>)
      requires queue != []
      modifies this`queue
      ensures evs != [] && old(queue) == evs + queue
    {
      var n: nat :| 1 <= n <= |queue|;
      evs := queue[..n];
      queue := queue[n..];
    }

    /** One turn of the loop of processInotifyEvents, with buf the events read and not yet
        processed: process the next one, or read more when it hangs. */
    method Turn(buf: seq<Event>, firstTry: bool) returns (buf': seq<Event>, firstTry': bool)
      requires buf != [] && !exited && (firstTry || |buf| > 1 || queue == [])
      modifies this`wlCache, this`k, this`queue, this`exited, wlCache, rootDirPaths
      ensures wlCache == old(wlCache) || fresh(wlCache)
      ensures Drain(walk, old(State()), buf + old(queue)) ==
              if exited then Final(State(), true) else Drain(walk, State(), buf' + queue)
      ensures firstTry' || |buf'| > 1 || queue == []
      ensures || exited
              || Advanced(buf + old(queue), buf' + queue)
              || (firstTry && !firstTry' && buf' != [] && buf' + queue == buf + old(queue))
    {
      ghost var s, q := State(), queue;
      ghost var o := ProcessNext(walk, s, buf, firstTry);
      var n := ProcessNextInotifyEvent(buf, firstTry);
      if n > 0 {
        ReadBoundary(walk, s, buf, q, firstTry);
        if o.Consumed? {
          TurnConsumes(walk, s, buf, q, o);
        } else {
          DrainEnds(walk, s, buf + q, o);
          DrainEmpty(walk, o.s);
          NoneLeft(buf + q);
        }
        return buf[n..], true;
      }
      HangingIsLast(walk, s, buf, firstTry);
      buf', firstTry' := buf, false;
      if queue != [] {
        var more := Read();
        assert buf + old(queue) == (buf + more) + queue;
        buf' := buf + more;
      }
    }

    /** processInotifyEvents: however much each read returns, what is left to do afterwards
        is what the whole stream would have left. A secondary read gets events if there are
        any. Each call makes progress. */
    method ProcessInotifyEvents()
      requires queue != [] && !exited
      modifies this`wlCache, this`k, this`queue, this`exited, wlCache, rootDirPaths
      ensures wlCache == old(wlCache) || fresh(wlCache)
      ensures Drain(walk, old(State()), old(queue)) ==
              if exited then Final(State(), true) else Drain(walk, State(), queue)
      ensures exited || Advanced(old(queue), queue)
    {
      ghost var goal, total := Drain(walk, State(), queue), queue;
      var buf := Read();
      var firstTry := true;
      while buf != [] && !exited
        invariant wlCache == old(wlCache) || fresh(wlCache)
        invariant rootDirPaths == old(rootDirPaths)
        invariant goal == if exited then Final(State(), true) else Drain(walk, State(), buf + queue)
        invariant firstTry || |buf| > 1 || queue == []
        invariant exited || (buf != [] && buf + queue == total) || Advanced(total, buf + queue)
        decreases !exited, Live(buf + queue), |buf + queue|, firstTry
      {
        buf, firstTry := Turn(buf, firstTry);
      }
      assert !exited ==> buf + queue == queue;
    }

    /** The main loop while events are pending: every way to cut the stream into reads ends in
        the same cache, the one that the undivided stream gives. */
    method ProcessAll()
      requires !exited
      modifies this`wlCache, this`k, this`queue, this`exited, wlCache, rootDirPaths
      ensures Final(State(), exited) == Drain(walk, old(State()), old(queue))
      ensures exited || queue == []
    {
      ghost var goal := Drain(walk, State(), queue);
      while queue != [] && !exited
        invariant wlCache == old(wlCache) || fresh(wlCache)
        invariant rootDirPaths == old(rootDirPaths)
        invariant goal == if exited then Final(State(), true) else Drain(walk, State(), queue)
        decreases !exited, Live(queue), |queue|
      {
        ProcessInotifyEvents();
      }
    }
  }
}
