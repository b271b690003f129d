/**
 inotify_dtree.c: a cache of (watch descriptor, path) pairs kept in step with directory
 trees by inotify events. This module has the kernel's side (directories, watches, events)
 and the program's steps as functions on values.
 */
module InotifySpec {
  import opened Wrappers
  import opened PathNames

  // ----- the kernel

  type Inode = nat

  datatype Flag =
    | ISDIR | CREATE | MOVED_FROM | MOVED_TO | DELETE_SELF | MOVE_SELF
    | IGNORED | Q_OVERFLOW | UNMOUNT

  datatype Event = Event(wd: int, mask: set<Flag>, cookie: nat, name: string)

  /** The directories by path, and the watches of the program's inotify instance; selfMoves are
      the inodes whose watch asks for IN_MOVE_SELF. */
  datatype Kernel = Kernel(
    dirs: map<Path, Inode>, wds: map<Inode, int>, selfMoves: set<Inode>,
    nextInode: Inode, nextWd: int, nextCookie: nat)

  /** nftw: the directories under a path, in whatever order they are visited. */
  type Walk = (map<Path, Inode>, Path) -> seq<Path>

  ghost predicate Walks(walk: Walk) {
    forall d: map<Path, Inode>, p: Path, x: Path :: x in walk(d, p) <==> x in d && p <= x
  }

  /** inotify_add_watch: a watch that exists gets the new mask. */
  function AddWatch(k: Kernel, i: Inode, selfMove: bool): (r: (int, Kernel)) {
    var k1 := k.(selfMoves := if selfMove then k.selfMoves + {i} else k.selfMoves - {i});
    if i in k.wds then (k.wds[i], k1)
    else (k.nextWd, k1.(wds := k.wds[i := k.nextWd], nextWd := k.nextWd + 1))
  }

  function RmWatch(k: Kernel, wd: int): Option<Kernel> {
    if wd in k.wds.Values then Some(k.(wds := map i | i in k.wds && k.wds[i] != wd :: k.wds[i]))
    else None
  }

  function IgnoredEvent(wd: int): Event {
    Event(wd, {IGNORED}, 0, "")
  }

  // ----- what processes do to the directories, and the events that follow

  /** rename is Rename when there is nothing at q, and Replace when there is an empty directory. */
  datatype FsOp = Mkdir(p: Path) | Rmdir(p: Path) | Rename(p: Path, q: Path) | Replace(p: Path, q: Path)

  function Parent(p: Path): Path
    requires |p| >= 1
  {
    p[..|p| - 1]
  }

  function Last(p: Path): string
    requires |p| >= 1
  {
    p[|p| - 1]
  }

  /** Where a path goes when p is renamed to q, and where it came from. */
  function Moved(x: Path, p: Path, q: Path): Path {
    if p <= x then q + x[|p|..] else x
  }

  function MovedDirs(dirs: map<Path, Inode>, p: Path, q: Path): map<Path, Inode>
    requires forall d :: d in dirs ==> !(q <= d)
    requires !(p <= q)
  {
    map x | x in (set d | d in dirs :: Moved(d, p, q)) ::
      assert forall d :: d in dirs ==> Moved(Moved(d, p, q), q, p) == d by { MovedBack(dirs, p, q); }
      dirs[Moved(x, q, p)]
  }

  lemma {:induction false} MovedBack(dirs: map<Path, Inode>, p: Path, q: Path)
    requires forall d :: d in dirs ==> !(q <= d)
    ensures forall d :: d in dirs ==> Moved(Moved(d, p, q), q, p) == d
  {
    forall d | d in dirs
      ensures Moved(Moved(d, p, q), q, p) == d
    {
      if p <= d {
        assert (q + d[|p|..])[|q|..] == d[|p|..];
        assert d == p + d[|p|..];
      }
    }
  }

  /** What the system calls demand. */
  ghost predicate OpOk(k: Kernel, op: FsOp) {
    match op
    case Mkdir(p) => CanMkdir(k, p)
    case Rmdir(p) => CanRmdir(k, p)
    case Rename(p, q) => CanRename(k, p, q)
    case Replace(p, q) => CanReplace(k, p, q)
  }

  ghost predicate CanMkdir(k: Kernel, p: Path) {
    |p| > 1 && p !in k.dirs && Parent(p) in k.dirs && NoSlash(Last(p))
  }

  ghost predicate CanRmdir(k: Kernel, p: Path) {
    |p| > 1 && p in k.dirs && (forall d :: d in k.dirs && p <= d ==> d == p)
  }

  ghost predicate CanRename(k: Kernel, p: Path, q: Path) {
    && |p| > 1 && |q| > 1 && p in k.dirs && q !in k.dirs && Parent(q) in k.dirs && NoSlash(Last(q))
    && !(p <= q)
  }

  ghost predicate CanReplace(k: Kernel, p: Path, q: Path) {
    |p| > 1 && p in k.dirs && CanRmdir(k, q) && p != q && !(p <= q)
  }

  /** Directories have parents, one path each, and inodes and descriptors are never reused. */
  ghost predicate KernelOk(k: Kernel) {
    && (forall p :: p in k.dirs ==> ValidPath(p) && k.dirs[p] < k.nextInode)
    && (forall p {:trigger Parent(p)} :: p in k.dirs && |p| > 1 ==> Parent(p) in k.dirs)
    && (forall p, p' :: p in k.dirs && p' in k.dirs && k.dirs[p] == k.dirs[p'] ==> p == p')
    && (forall i :: i in k.wds ==> i < k.nextInode && 0 <= k.wds[i] < k.nextWd)
    && (forall i, i' :: i in k.wds && i' in k.wds && k.wds[i] == k.wds[i'] ==> i == i')
    && k.nextWd >= 0
  }

  predicate Watching(k: Kernel, p: Path) {
    p in k.dirs && k.dirs[p] in k.wds
  }

  function WdOf(k: Kernel, p: Path): int
    requires Watching(k, p)
  {
    k.wds[k.dirs[p]]
  }

  lemma {:induction false} NothingUnder(k: Kernel, q: Path, d: Path)
    requires KernelOk(k) && |q| >= 1 && q !in k.dirs && d in k.dirs
    ensures !(q <= d)
    decreases |d|
  {
    if q <= d {
      assert d != q;
      assert q <= Parent(d);
      NothingUnder(k, q, Parent(d));
    }
  }

  function DoRmdir(k: Kernel, p: Path): (Kernel, seq<Event>)
    requires CanRmdir(k, p)
  {
    (k.(dirs := k.dirs - {p}, wds := k.wds - {k.dirs[p]}),
     if Watching(k, p) then [Event(WdOf(k, p), {ISDIR, DELETE_SELF}, 0, ""), IgnoredEvent(WdOf(k, p))] else [])
  }

  function DoRename(k: Kernel, p: Path, q: Path): (Kernel, seq<Event>)
    requires KernelOk(k) && CanRename(k, p, q)
  {
    assert forall d :: d in k.dirs ==> !(q <= d) by {
      forall d | d in k.dirs ensures !(q <= d) { NothingUnder(k, q, d); }
    }
    (k.(dirs := MovedDirs(k.dirs, p, q), nextCookie := k.nextCookie + 1),
     (if Watching(k, Parent(p)) then [Event(WdOf(k, Parent(p)), {ISDIR, MOVED_FROM}, k.nextCookie, Last(p))] else [])
     + (if Watching(k, Parent(q)) then [Event(WdOf(k, Parent(q)), {ISDIR, MOVED_TO}, k.nextCookie, Last(q))] else []))
  }

  function DoMkdir(k: Kernel, p: Path): (Kernel, seq<Event>)
    requires |p| >= 1
  {
    (k.(dirs := k.dirs[p := k.nextInode], nextInode := k.nextInode + 1),
     if Watching(k, Parent(p)) then [Event(WdOf(k, Parent(p)), {ISDIR, CREATE}, 0, Last(p))] else [])
  }

  /** The watch of p asks for IN_MOVE_SELF. */
  predicate Flagged(k: Kernel, p: Path) {
    Watching(k, p) && k.dirs[p] in k.selfMoves
  }

  function MoveSelf(k: Kernel, p: Path): seq<Event> {
    if Flagged(k, p) then [Event(WdOf(k, p), {MOVE_SELF}, 0, "")] else []
  }

  lemma {:induction false} FreedPlace(k: Kernel, p: Path, q: Path)
    requires KernelOk(k) && CanReplace(k, p, q)
    ensures KernelOk(DoRmdir(k, q).0) && CanRename(DoRmdir(k, q).0, p, q)
  {
    assert ValidPath(q);
  }

  /** The events of the rename, and then those of the directory that is gone. */
  function DoReplace(k: Kernel, p: Path, q: Path): (Kernel, seq<Event>)
    requires KernelOk(k) && CanReplace(k, p, q)
  {
    FreedPlace(k, p, q);
    var (k1, gone) := DoRmdir(k, q);
    var (k2, moved) := DoRename(k1, p, q);
    (k2, moved + MoveSelf(k1, p) + gone)
  }

  /** The kernel after the operation, and the events it queues. */
  function DoOp(k: Kernel, op: FsOp): (Kernel, seq<Event>)
    requires KernelOk(k) && OpOk(k, op)
  {
    match op
    case Mkdir(p) => DoMkdir(k, p)
    case Rmdir(p) => DoRmdir(k, p)
    case Rename(p, q) => (DoRename(k, p, q).0, DoRename(k, p, q).1 + MoveSelf(k, p))
    case Replace(p, q) => DoReplace(k, p, q)
  }

  // ----- the cache

  datatype Watch = Watch(wd: int, path: string)

  const EMPTY_SLOT := Watch(-1, "")
  const ALLOC_INCR := 200

  /** First slot at or after j that holds wd; with wd -1, the first free slot. */
  function FindFrom(slots: seq<Watch>, wd: int, j: nat): (r: int)
    requires j <= |slots|
    ensures r == -1 || j <= r < |slots|
    ensures r >= 0 ==> slots[r].wd == wd && forall i :: j <= i < r ==> slots[i].wd != wd
    ensures r == -1 ==> forall i :: j <= i < |slots| ==> slots[i].wd != wd
    decreases |slots| - j
  {
    if j == |slots| then -1 else if slots[j].wd == wd then j else FindFrom(slots, wd, j + 1)
  }

  function FindWatch(slots: seq<Watch>, wd: int): (r: int)
    ensures -1 <= r < |slots|
    ensures r >= 0 ==> slots[r].wd == wd
    ensures r == -1 <==> forall i :: 0 <= i < |slots| ==> slots[i].wd != wd
  {
    FindFrom(slots, wd, 0)
  }

  function EmptySlots(n: nat): (r: seq<Watch>)
    ensures |r| == n && forall i :: 0 <= i < n ==> r[i] == EMPTY_SLOT
  {
    seq(n, i => EMPTY_SLOT)
  }

  function AddToCache(slots: seq<Watch>, wd: int, path: string): (r: seq<Watch>)
    ensures |r| >= |slots|
  {
    var j := FindWatch(slots, -1);
    if j >= 0 then slots[j := Watch(wd, path)]
    else (slots + EmptySlots(ALLOC_INCR))[|slots| := Watch(wd, path)]
  }

  predicate PathInCache(slots: seq<Watch>, path: string) {
    exists j :: 0 <= j < |slots| && slots[j].wd >= 0 && slots[j].path == path
  }

  function RewriteSlot(w: Watch, full: string, to: string): Watch {
    if IsUnder(full, w.path) then w.(path := to + w.path[|full|..]) else w
  }

  function RewritePaths(slots: seq<Watch>, full: string, to: string): (r: seq<Watch>)
    ensures |r| == |slots|
    ensures forall j :: 0 <= j < |slots| ==> r[j] == RewriteSlot(slots[j], full, to)
  {
    seq(|slots|, j requires 0 <= j < |slots| => RewriteSlot(slots[j], full, to))
  }

  // ----- the program

  /** The program's state; a root that is no longer monitored is None. */
  datatype St = St(slots: seq<Watch>, roots: seq<Option<string>>, k: Kernel)

  predicate IsRoot(roots: seq<Option<string>>, path: string) {
    Some(path) in roots
  }

  /** The first element of rootDirPaths at or after j that is path, or their number. */
  function FindRoot(roots: seq<Option<string>>, path: string, j: nat): (r: nat)
    requires j <= |roots|
    ensures j <= r <= |roots|
    ensures r < |roots| ==> roots[r] == Some(path)
    ensures forall i :: j <= i < r ==> roots[i] != Some(path)
    decreases |roots| - j
  {
    if j == |roots| || roots[j] == Some(path) then j else FindRoot(roots, path, j + 1)
  }

  function ZapRoot(roots: seq<Option<string>>, path: string): (r: seq<Option<string>>)
    ensures |r| == |roots|
  {
    var j := FindRoot(roots, path, 0);
    if j < |roots| then roots[j := None] else roots
  }

  predicate NoRoots(roots: seq<Option<string>>) {
    forall i :: 0 <= i < |roots| ==> roots[i].None?
  }

  function TraverseTree(s: St, p: Path): (r: St)
    ensures r.roots == s.roots && r.k.dirs == s.k.dirs
  {
    if p == [] || p !in s.k.dirs then s  // ENOENT
    else
      var (wd, k) := AddWatch(s.k, s.k.dirs[p], IsRoot(s.roots, Join(p)));
      if FindWatch(s.slots, wd) >= 0 then s.(k := k)
      else s.(k := k, slots := AddToCache(s.slots, wd, Join(p)))
  }

  function TraverseAll(s: St, ps: seq<Path>): (r: St)
    ensures r.roots == s.roots && r.k.dirs == s.k.dirs
    decreases |ps|
  {
    if ps == [] then s else TraverseAll(TraverseTree(s, ps[0]), ps[1..])
  }

  function WatchSubtree(walk: Walk, s: St, path: string): (r: St)
    ensures r.roots == s.roots && r.k.dirs == s.k.dirs
  {
    TraverseAll(s, walk(s.k.dirs, Split(path)))
  }

  datatype Zapped = Zapped(s: St, count: int, sent: seq<Event>)

  /** zapSubtree from slot j on; count is -1 when an inotify_rm_watch call failed. */
  function ZapFrom(s: St, full: string, j: nat): (r: Zapped)
    requires j <= |s.slots|
    ensures r.count >= -1 && r.s.roots == s.roots && |r.s.slots| == |s.slots|
    ensures forall e :: e in r.sent ==> IGNORED in e.mask
    decreases |s.slots| - j
  {
    if j == |s.slots| then Zapped(s, 0, [])
    else
      var w := s.slots[j];
      if w.wd >= 0 && IsUnder(full, w.path) then
        match RmWatch(s.k, w.wd)
        case None => Zapped(s, -1, [])
        case Some(k) =>
          var r := ZapFrom(s.(k := k, slots := s.slots[j := EMPTY_SLOT]), full, j + 1);
          Zapped(r.s, if r.count < 0 then -1 else r.count + 1, [IgnoredEvent(w.wd)] + r.sent)
      else ZapFrom(s, full, j + 1)
  }

  function WatchRoots(walk: Walk, s: St, j: nat): (r: St)
    requires j <= |s.roots|
    ensures r.roots == s.roots && r.k.dirs == s.k.dirs
    decreases |s.roots| - j
  {
    if j == |s.roots| then s
    else WatchRoots(walk, if s.roots[j].Some? then WatchSubtree(walk, s, s.roots[j].value) else s, j + 1)
  }

  /** A new inotify instance and an empty cache, filled from the roots. */
  function Reinitialize(walk: Walk, s: St): (r: St)
    ensures r.roots == s.roots && r.k.dirs == s.k.dirs
  {
    WatchRoots(walk, s.(slots := [], k := s.k.(wds := map[], selfMoves := {}, nextWd := 1)), 0)
  }

  /** How processNextInotifyEvent ends: so many events consumed, and the events that its own
      inotify_rm_watch calls queued; or a hanging IN_MOVED_FROM; or the cache was rebuilt and
      the rest of the buffer is to be dropped; or the program exits. */
  datatype Outcome =
    | Consumed(s: St, n: nat, sent: seq<Event>)
    | Hanging
    | Rebuilt(s: St)
    | Exited(s: St)

  predicate IsPair(ev: Event, next: Event) {
    MOVED_TO in next.mask && next.cookie == ev.cookie
  }

  function ProcessMovedFrom(walk: Walk, s: St, slot: nat, buf: seq<Event>, firstTry: bool): (r: Outcome)
    requires slot < |s.slots| && buf != []
    ensures r.Consumed? ==> 1 <= r.n <= |buf| && forall e :: e in r.sent ==> IGNORED in e.mask
  {
    var ev := buf[0];
    var full := Child(s.slots[slot].path, ev.name);
    if |buf| > 1 && IsPair(ev, buf[1]) then
      var next := FindWatch(s.slots, buf[1].wd);
      if next == -1 then Rebuilt(Reinitialize(walk, s))
      else Consumed(s.(slots := RewritePaths(s.slots, full, Child(s.slots[next].path, buf[1].name))), 2, [])
    else if |buf| > 1 || !firstTry then
      var z := ZapFrom(s, full, 0);
      if z.count == -1 then Rebuilt(Reinitialize(walk, z.s)) else Consumed(z.s, 1, z.sent)
    else Hanging
  }

  /** processNextInotifyEvent. An event that names no watch (overflow) or that says its watch
      is gone (ignored) is not looked up; the kernel sets no other flag on these two. */
  function ProcessNext(walk: Walk, s: St, buf: seq<Event>, firstTry: bool): (r: Outcome)
    requires buf != []
    ensures r.Consumed? ==> 1 <= r.n <= |buf| && forall e :: e in r.sent ==> IGNORED in e.mask
    ensures IGNORED in buf[0].mask && r.Consumed? ==> r.sent == []
  {
    var ev := buf[0];
    if ev.wd == -1 || IGNORED in ev.mask then
      if Q_OVERFLOW in ev.mask then Rebuilt(Reinitialize(walk, s)) else Consumed(s, 1, [])
    else
      var slot := FindWatch(s.slots, ev.wd);
      if slot == -1 then Rebuilt(Reinitialize(walk, s))
      else
        var path := s.slots[slot].path;
        if ISDIR in ev.mask && (CREATE in ev.mask || MOVED_TO in ev.mask) then
          var full := Child(path, ev.name);
          Consumed(if PathInCache(s.slots, full) then s else WatchSubtree(walk, s, full), 1, [])
        else if DELETE_SELF in ev.mask then
          var roots := if IsRoot(s.roots, path) then ZapRoot(s.roots, path) else s.roots;
          if IsRoot(s.roots, path) && NoRoots(roots) then Exited(s.(roots := roots))
          else Consumed(s.(roots := roots, slots := s.slots[slot := EMPTY_SLOT]), 1, [])
        else if MOVED_FROM in ev.mask && ISDIR in ev.mask then
          ProcessMovedFrom(walk, s, slot, buf, firstTry)
        else if Q_OVERFLOW in ev.mask then
          Rebuilt(Reinitialize(walk, s))
        else if UNMOUNT in ev.mask then
          Consumed(s.(slots := s.slots[slot := EMPTY_SLOT]), 1, [])
        else if MOVE_SELF in ev.mask && IsRoot(s.roots, path) then
          var s1 := s.(roots := ZapRoot(s.roots, path));
          if NoRoots(s1.roots) then Exited(s1)
          else
            var z := ZapFrom(s1, path, 0);
            if z.count == -1 then Rebuilt(Reinitialize(walk, z.s)) else Consumed(z.s, 1, z.sent)
        else Consumed(s, 1, [])
  }

  // ----- a whole stream of events

  function Live(q: seq<Event>): nat {
    if q == [] then 0 else (if IGNORED in q[0].mask then 0 else 1) + Live(q[1..])
  }

  lemma {:induction false} LiveConcat(a: seq<Event>, b: seq<Event>)
    ensures Live(a + b) == Live(a) + Live(b)
  {
    if a == [] {
      assert a + b == b;
    } else {
      assert (a + b)[1..] == a[1..] + b;
      LiveConcat(a[1..], b);
    }
  }

  lemma {:induction false} LiveIgnored(q: seq<Event>)
    requires forall e :: e in q ==> IGNORED in e.mask
    ensures Live(q) == 0
  {
    if q != [] {
      LiveIgnored(q[1..]);
    }
  }

  lemma {:induction false} LiveDrop(q: seq<Event>, n: nat)
    requires 1 <= n <= |q|
    ensures Live(q[n..]) + (if IGNORED in q[0].mask then 0 else 1) <= Live(q)
  {
    assert q == q[..n] + q[n..];
    LiveConcat(q[..n], q[n..]);
  }

  lemma {:induction false} Progress(q: seq<Event>, n: nat, sent: seq<Event>)
    requires 1 <= n <= |q| && (forall e :: e in sent ==> IGNORED in e.mask)
    requires IGNORED in q[0].mask ==> sent == []
    ensures Live(q[n..] + sent) < Live(q) || (Live(q[n..] + sent) == Live(q) && |q[n..] + sent| < |q|)
  {
    LiveDrop(q, n);
    LiveConcat(q[n..], sent);
    LiveIgnored(sent);
  }

  datatype Final = Final(s: St, exited: bool)

  /** The stream processed with all of it at hand: no read boundaries. */
  function Drain(walk: Walk, s: St, q: seq<Event>): Final
    decreases Live(q), |q|
  {
    if q == [] then Final(s, false)
    else
      match ProcessNext(walk, s, q, false)
      case Consumed(s', n, sent) =>
        Progress(q, n, sent);
        Drain(walk, s', q[n..] + sent)
      case Rebuilt(s') => Final(s', false)
      case Exited(s') => Final(s', true)
  }

  lemma {:induction false} DrainStep(walk: Walk, s: St, q: seq<Event>, s': St, n: nat, sent: seq<Event>,
          rest: seq<Event>)
    requires q != [] && ProcessNext(walk, s, q, false) == Consumed(s', n, sent) && rest == q[n..] + sent
    ensures Drain(walk, s, q) == Drain(walk, s', rest)
  {
  }

  lemma {:induction false} DrainEnds(walk: Walk, s: St, q: seq<Event>, o: Outcome)
    requires q != [] && o == ProcessNext(walk, s, q, false) && !o.Consumed?
    ensures o.Rebuilt? || o.Exited?
    ensures Drain(walk, s, q) == Final(o.s, o.Exited?)
  {
  }

  lemma {:induction false} DrainEmpty(walk: Walk, s: St)
    ensures Drain(walk, s, []) == Final(s, false)
  {
  }
}
