/**
 Several renames whose events are queued before the first of them is processed: the directories
 are then ahead of the cache. What the program does is what it would have done rename by rename,
 so that it must tell the halves of different renames apart. And the events after which the
 program can only start afresh.
 */
module InotifyQueue {
  import opened PathNames
  import opened InotifySpec
  import opened InotifyProofs
  import opened InotifyAgreement
  import opened InotifyRenames
  import opened InotifyMoves
  import opened InotifyRoots
  import opened InotifyReplace
  import opened InotifyRuns

  // ----- an IN_MOVED_FROM whose partner is not next

  /** The kernel's directories may be any by now, its watches are those that the cache knows. */
  ghost predicate Ahead(k: Kernel, k': Kernel) {
    k' == k.(dirs := k'.dirs, nextCookie := k'.nextCookie)
  }

  lemma {:induction false} ZapEmpties(s: St, full: string)
    requires ZapFrom(s, full, 0).count >= 0
    ensures var r := ZapFrom(s, full, 0).s.slots;
            forall i :: 0 <= i < |s.slots| ==>
              r[i] == if s.slots[i].wd >= 0 && Split(full) <= Split(s.slots[i].path) then Watch(-1, "") else s.slots[i]
  {
    ZapSlots(s, full, 0);
    forall j | 0 <= j < |s.slots|
      ensures j in Hits(s.slots, full, 0) <==> s.slots[j].wd >= 0 && Split(full) <= Split(s.slots[j].path)
    {
      UnderIsPrefix(full, s.slots[j].path);
    }
  }

  /** The directory has left the trees: one event is consumed, exactly the slots under its path are
      emptied, and exactly their watches are removed. */
  lemma {:induction false} UnmatchedZaps(walk: Walk, s: St, k: Kernel, p: Path, buf: seq<Event>, firstTry: bool)
    requires KernelOk(s.k) && InSync(s.slots, s.k) && Ahead(s.k, k)
    requires |buf| >= 2 && FromFor(s.k, p, buf[0])
    requires !(MOVED_TO in buf[1].mask && buf[1].cookie == buf[0].cookie)
    ensures var r := ProcessNext(walk, s.(k := k), buf, firstTry);
            && r.Consumed? && r.n == 1 && r.s.roots == s.roots && r.s.k.dirs == k.dirs && |r.s.slots| == |s.slots|
            && (forall i :: 0 <= i < |s.slots| ==>
                  r.s.slots[i] ==
                  if s.slots[i].wd >= 0 && p <= Split(s.slots[i].path) then Watch(-1, "") else s.slots[i])
            && forall x :: x in s.k.dirs ==>
                 (s.k.dirs[x] in r.s.k.wds <==> Watching(s.k, x) && !(p <= x))
  {
    var i, full := FindsChild(s.slots, s.k, p);
    ZapWatches(s, full);
    ZapDirs(s, full, 0, k.dirs, k.selfMoves, k.nextCookie);
    assert s.(k := s.k.(dirs := k.dirs, selfMoves := k.selfMoves, nextCookie := k.nextCookie)) == s.(k := k);
    ZapEmpties(s, full);
    UnmatchedNext(walk, s.(k := k), i, buf, firstTry);
    WatchesUnder(s.k, ZapFrom(s, full, 0).s.k, p);
  }

  lemma {:induction false} UnmatchedNext(walk: Walk, s: St, i: nat, buf: seq<Event>, firstTry: bool)
    requires |buf| >= 2 && buf[0].mask == {ISDIR, MOVED_FROM} && !IsPair(buf[0], buf[1])
    requires i == FindWatch(s.slots, buf[0].wd) && i < |s.slots| && s.slots[i].wd >= 0
    requires ZapFrom(s, Child(s.slots[i].path, buf[0].name), 0).count >= 0
    ensures var z := ZapFrom(s, Child(s.slots[i].path, buf[0].name), 0);
            ProcessNext(walk, s, buf, firstTry) == Consumed(z.s, 1, z.sent)
  {
    assert ProcessNext(walk, s, buf, firstTry) == ProcessMovedFrom(walk, s, i, buf, firstTry);
  }

  lemma {:induction false} WatchesUnder(k: Kernel, z: Kernel, p: Path)
    requires z.dirs == k.dirs && forall x :: Watching(z, x) <==> Watching(k, x) && !(p <= x)
    ensures forall x :: x in k.dirs ==> (k.dirs[x] in z.wds <==> Watching(k, x) && !(p <= x))
  {
  }

  // ----- IN_IGNORED events at the end do nothing

  ghost predicate AllIgnored(q: seq<Event>) {
    forall e :: e in q ==> e.mask == {IGNORED}
  }

  lemma {:induction false} SentIgnored(walk: Walk, s: St, q: seq<Event>)
    requires q != [] && ProcessNext(walk, s, q, false).Consumed?
    ensures AllIgnored(ProcessNext(walk, s, q, false).sent)
  {
    var slot := FindWatch(s.slots, q[0].wd);
    if slot >= 0 {
      ZapSendsIgnored(s, Child(s.slots[slot].path, q[0].name), 0);
      ZapSendsIgnored(s.(roots := ZapRoot(s.roots, s.slots[slot].path)), s.slots[slot].path, 0);
    }
  }

  lemma {:induction false} SameStep(walk: Walk, s: St, a: seq<Event>, i: seq<Event>, j: seq<Event>)
    requires a != [] && AllIgnored(i) && AllIgnored(j)
    ensures ProcessNext(walk, s, a + i, false) == ProcessNext(walk, s, a + j, false)
    ensures var o := ProcessNext(walk, s, a + i, false); !o.Hanging? && (o.Consumed? ==> o.n <= |a|)
  {
    if |a| == 1 {
      assert i != [] ==> (a + i)[1] == i[0] && i[0] in i;
      assert j != [] ==> (a + j)[1] == j[0] && j[0] in j;
    } else {
      assert (a + i)[1] == a[1] && (a + j)[1] == a[1];
    }
  }

  lemma {:induction false} TrailingIgnored(walk: Walk, s: St, a: seq<Event>, i: seq<Event>, j: seq<Event>)
    requires AllIgnored(i) && AllIgnored(j)
    ensures Drain(walk, s, a + i) == Drain(walk, s, a + j)
    decreases |a|
  {
    if a == [] {
      assert a + i == i && a + j == j;
      DrainIgnored(walk, s, i);
      DrainIgnored(walk, s, j);
    } else {
      SameStep(walk, s, a, i, j);
      var o := ProcessNext(walk, s, a + i, false);
      if o.Consumed? {
        SentIgnored(walk, s, a + i);
        assert (a + i)[o.n..] + o.sent == a[o.n..] + (i + o.sent);
        assert (a + j)[o.n..] + o.sent == a[o.n..] + (j + o.sent);
        DrainStep(walk, s, a + i, o.s, o.n, o.sent, a[o.n..] + (i + o.sent));
        DrainStep(walk, s, a + j, o.s, o.n, o.sent, a[o.n..] + (j + o.sent));
        TrailingIgnored(walk, o.s, a[o.n..], i + o.sent, j + o.sent);
      } else {
        DrainEnds(walk, s, a + i, o);
        DrainEnds(walk, s, a + j, o);
      }
    }
  }

  // ----- one rename, with the events of others behind its own

  /** Nothing but the slots is needed to process the events of the rename: it comes from a watched
      directory, or has no events; and no IN_MOVE_SELF tells of it. */
  ghost predicate Light(s: St, p: Path, q: Path) {
    && CanRename(s.k, p, q) && !Flagged(s.k, p)
    && (Watching(s.k, Parent(p)) ||
        (!Watching(s.k, Parent(q)) && forall x :: x in s.k.dirs && p <= x ==> !Watching(s.k, x)))
  }

  ghost predicate Synced(s: St) {
    KernelOk(s.k) && InSync(s.slots, s.k)
  }

  lemma {:induction false} LightStep(s: St, p: Path, q: Path)
    requires Synced(s) && CanRename(s.k, p, q)
    ensures Step(s, DoRename(s.k, p, q).0, p, q)
  {
    RenameMoves(s.k, p, q);
    RenameKernel(s.k, DoRename(s.k, p, q).0, p, q);
    AllAbsent(s.k, q);
    assert ValidPath(p);
  }

  /** What has to be done is done by the time the other events come, with the watches removed that
      have to be; and the directories stay what they are. */
  ghost predicate Steps(walk: Walk, s: St, k: Kernel, evs: seq<Event>, t: St, K: Kernel, more: seq<Event>) {
    && Drain(walk, s.(k := k), evs) == Final(t, false)
    && t.k == k.(wds := t.k.wds) && Synced(t) && Fewer(k, t.k)
    && Drain(walk, s.(k := K), evs + more) == Drain(walk, t.(k := K.(wds := t.k.wds)), more)
  }

  /** t has some of the watches of k. */
  ghost predicate Fewer(k: Kernel, t: Kernel) {
    && t == k.(wds := t.wds)
    && forall i :: i in t.wds ==> i in k.wds && t.wds[i] == k.wds[i]
  }

  ghost predicate NoPartner(cookie: nat, more: seq<Event>) {
    more != [] ==> !(MOVED_TO in more[0].mask && more[0].cookie == cookie)
  }

  lemma {:induction false} WithinSteps(walk: Walk, s: St, k: Kernel, p: Path, q: Path, from: Event, to: Event,
          K: Kernel, more: seq<Event>) returns (t: St)
    requires Synced(s) && Step(s, k, p, q) && FromFor(s.k, p, from) && ToFor(s.k, q, to) && from.cookie == to.cookie
    ensures Steps(walk, s, k, [from, to], t, K.(wds := k.wds), more)
  {
    var i, full := FindsChild(s.slots, s.k, p);
    var j, dest := FindsChild(s.slots, s.k, q);
    RewriteInSync(s.slots, s.k, k, full, dest);
    t := s.(k := k, slots := RewritePaths(s.slots, full, dest));
    var K' := K.(wds := k.wds);
    PairThen(walk, s.(k := k), from, to, [], i, j);
    assert [from, to] + [] == [from, to];
    DrainEmpty(walk, t);
    PairThen(walk, s.(k := K'), from, to, more, i, j);
    assert s.(k := K', slots := t.slots) == t.(k := K'.(wds := t.k.wds));
  }

  lemma {:induction false} ZapFewer(s: St, full: string, j: nat)
    requires j <= |s.slots|
    ensures Fewer(s.k, ZapFrom(s, full, j).s.k)
    decreases |s.slots| - j
  {
    if j < |s.slots| {
      if Hit(s.slots[j], full) {
        if s.slots[j].wd in s.k.wds.Values {
          ZapFewer(s.(k := RmWatch(s.k, s.slots[j].wd).value, slots := s.slots[j := EMPTY_SLOT]), full, j + 1);
        }
      } else {
        ZapFewer(s, full, j + 1);
      }
    }
  }

  lemma {:induction false} OutDrains(walk: Walk, s: St, from: Event, more: seq<Event>, i: nat)
    requires from.mask == {ISDIR, MOVED_FROM} && NoPartner(from.cookie, more)
    requires i == FindWatch(s.slots, from.wd) && i < |s.slots| && s.slots[i].wd >= 0
    requires ZapFrom(s, Child(s.slots[i].path, from.name), 0).count >= 0
    ensures Drain(walk, s, [from] + more) == Drain(walk, ZapFrom(s, Child(s.slots[i].path, from.name), 0).s, more)
  {
    var z := ZapFrom(s, Child(s.slots[i].path, from.name), 0);
    if more == [] {
      OutProcessed(walk, s, from, i);
      DrainEmpty(walk, z.s);
      assert [from] + [] == [from];
    } else {
      OutThen(walk, s, from, more, i);
      ZapSendsIgnored(s, Child(s.slots[i].path, from.name), 0);
      TrailingIgnored(walk, z.s, more, z.sent, []);
      assert more + [] == more;
    }
  }

  lemma {:induction false} OutSteps(walk: Walk, s: St, k: Kernel, p: Path, q: Path, from: Event,
          K: Kernel, more: seq<Event>) returns (t: St)
    requires Synced(s) && Step(s, k, p, q) && FromFor(s.k, p, from) && Ahead(s.k, k) && Ahead(s.k, K)
    requires NoPartner(from.cookie, more)
    ensures Steps(walk, s, k, [from], t, K, more)
  {
    var i, full := FindsChild(s.slots, s.k, p);
    ZapsTree(s, k, p, q, full);
    var z := ZapFrom(s.(k := k), full, 0);
    t := z.s;
    ZapFewer(s.(k := k), full, 0);
    OutDrains(walk, s.(k := k), from, [], i);
    assert [from] + [] == [from];
    DrainEmpty(walk, t);
    ZapDirs(s.(k := k), full, 0, K.dirs, K.selfMoves, K.nextCookie);
    assert s.(k := k).(k := k.(dirs := K.dirs, selfMoves := K.selfMoves, nextCookie := K.nextCookie)) == s.(k := K);
    OutDrains(walk, s.(k := K), from, more, i);
  }

  lemma {:induction false} ElsewhereSteps(walk: Walk, s: St, k: Kernel, p: Path, q: Path, K: Kernel, more: seq<Event>)
    requires Synced(s) && Step(s, k, p, q) && Ahead(s.k, k) && Ahead(s.k, K)
    requires forall x :: x in s.k.dirs && p <= x ==> !Watching(s.k, x)
    ensures Steps(walk, s, k, [], s.(k := k), K, more)
  {
    Carried(s, k, p, q, false);
    Outside(s, k, p, q);
    SameWatches(s.slots, s.k, k);
    DrainEmpty(walk, s.(k := k));
    assert [] + more == more;
    assert K.(wds := k.wds) == K && k.(wds := k.wds) == k;
  }

  lemma {:induction false} EventsSteps(walk: Walk, s: St, k: Kernel, p: Path, q: Path, from: Event, to: Event,
          evs: seq<Event>, K: Kernel, more: seq<Event>) returns (t: St)
    requires Synced(s) && Step(s, k, p, q) && Ahead(s.k, k) && Ahead(s.k, K)
    requires EventsFor(s.k, p, q, from, to, evs) && NoPartner(from.cookie, more)
    requires Watching(s.k, Parent(p)) ||
             (!Watching(s.k, Parent(q)) && forall x :: x in s.k.dirs && p <= x ==> !Watching(s.k, x))
    ensures Steps(walk, s, k, evs, t, K, more)
  {
    if Watching(s.k, Parent(p)) {
      if Watching(s.k, Parent(q)) {
        t := WithinSteps(walk, s, k, p, q, from, to, K, more);
        assert K.(wds := k.wds) == K;
      } else {
        t := OutSteps(walk, s, k, p, q, from, K, more);
      }
    } else {
      ElsewhereSteps(walk, s, k, p, q, K, more);
      t := s.(k := k);
    }
  }

  lemma {:induction false} LightSteps(walk: Walk, s: St, p: Path, q: Path, k: Kernel, evs: seq<Event>, K: Kernel,
          more: seq<Event>) returns (t: St)
    requires Synced(s) && Light(s, p, q) && (k, evs) == DoOp(s.k, Rename(p, q))
    requires Ahead(s.k, K) && NoPartner(s.k.nextCookie, more)
    ensures Steps(walk, s, k, evs, t, K, more)
  {
    LightStep(s, p, q);
    var from, to := RenameEvents(s.k, p, q);
    FirstCookie(s.k, p, q, from, to);
    if Watching(s.k, Parent(p)) {
      t := EventsSteps(walk, s, k, p, q, from, to, evs, K, more);
    } else {
      ElsewhereSteps(walk, s, k, p, q, K, more);
      t := s.(k := k);
    }
  }

  lemma {:induction false} FirstCookie(k: Kernel, p: Path, q: Path, from: Event, to: Event)
    requires KernelOk(k) && CanRename(k, p, q) && !Flagged(k, p)
    requires EventsFor(k, p, q, from, to, DoRename(k, p, q).1)
    ensures Watching(k, Parent(p)) ==> from.cookie == k.nextCookie
    ensures DoOp(k, Rename(p, q)) == DoRename(k, p, q)
    ensures !Watching(k, Parent(p)) && !Watching(k, Parent(q)) ==> DoRename(k, p, q).1 == []
  {
    var evs := DoRename(k, p, q).1;
    assert evs + MoveSelf(k, p) == evs;
    if Watching(k, Parent(p)) {
      assert evs[0] == from && evs[0].cookie == k.nextCookie;
    }
  }

  // ----- any number of renames in the queue

  datatype Ren = Ren(p: Path, q: Path)

  /** The kernel after the renames, and all their events. */
  function Queued(k: Kernel, ops: seq<Ren>): (Kernel, seq<Event>)
    requires Possible(k, ops)
    decreases |ops|
  {
    if ops == [] then (k, [])
    else
      var (k1, e1) := DoOp(k, Rename(ops[0].p, ops[0].q));
      var (k2, e2) := Queued(k1, ops[1..]);
      (k2, e1 + e2)
  }

  ghost predicate Possible(k: Kernel, ops: seq<Ren>)
    decreases |ops|
  {
    ops == [] ||
    (KernelOk(k) && CanRename(k, ops[0].p, ops[0].q) && Possible(DoOp(k, Rename(ops[0].p, ops[0].q)).0, ops[1..]))
  }

  /** The watches of k that t lacks do not matter to the rename. */
  ghost predicate SameSeen(k: Kernel, t: Kernel, p: Path, q: Path)
    requires |p| >= 1 && |q| >= 1
  {
    && (Watching(k, Parent(p)) ==> Watching(t, Parent(p)))
    && (Watching(k, Parent(q)) ==> Watching(t, Parent(q)))
    && (Flagged(k, p) ==> Flagged(t, p))
  }

  ghost predicate AllSeen(k: Kernel, t: Kernel, ops: seq<Ren>)
    decreases |ops|
  {
    ops == [] ||
    (KernelOk(k) && CanRename(k, ops[0].p, ops[0].q) && KernelOk(t) && CanRename(t, ops[0].p, ops[0].q) &&
     SameSeen(k, t, ops[0].p, ops[0].q) &&
     AllSeen(DoOp(k, Rename(ops[0].p, ops[0].q)).0, DoOp(t, Rename(ops[0].p, ops[0].q)).0, ops[1..]))
  }

  lemma {:induction false} SeenSame(k: Kernel, t: Kernel, p: Path, q: Path)
    requires KernelOk(k) && KernelOk(t) && Fewer(k, t) && CanRename(k, p, q) && CanRename(t, p, q)
    requires SameSeen(k, t, p, q)
    ensures var a, b := DoOp(k, Rename(p, q)), DoOp(t, Rename(p, q));
            b.1 == a.1 && b.0 == a.0.(wds := t.wds) && a.0.wds == k.wds && Fewer(a.0, b.0)
  {
  }

  lemma {:induction false} QueuedFewer(k: Kernel, t: Kernel, ops: seq<Ren>)
    requires Fewer(k, t) && Possible(k, ops) && AllSeen(k, t, ops)
    ensures Possible(t, ops) && Queued(t, ops) == (Queued(k, ops).0.(wds := t.wds), Queued(k, ops).1)
    decreases |ops|
  {
    if ops != [] {
      SeenSame(k, t, ops[0].p, ops[0].q);
      QueuedFewer(DoOp(k, Rename(ops[0].p, ops[0].q)).0, DoOp(t, Rename(ops[0].p, ops[0].q)).0, ops[1..]);
    }
  }

  lemma {:induction false} OneAhead(k: Kernel, p: Path, q: Path)
    requires KernelOk(k) && CanRename(k, p, q)
    ensures var (k1, e1) := DoOp(k, Rename(p, q));
            && Ahead(k, k1) && k1.nextCookie == k.nextCookie + 1
            && forall e :: e in e1 && MOVED_TO in e.mask ==> e.cookie == k.nextCookie
  {
  }

  lemma {:induction false} QueuedAhead(k: Kernel, ops: seq<Ren>)
    requires Possible(k, ops)
    ensures Ahead(k, Queued(k, ops).0) && Queued(k, ops).0.nextCookie >= k.nextCookie
    ensures forall e :: e in Queued(k, ops).1 && MOVED_TO in e.mask ==> e.cookie >= k.nextCookie
    decreases |ops|
  {
    if ops != [] {
      OneAhead(k, ops[0].p, ops[0].q);
      QueuedAhead(DoOp(k, Rename(ops[0].p, ops[0].q)).0, ops[1..]);
    }
  }

  /** Each rename processed before the next one happens. */
  ghost function OneByOne(walk: Walk, s: St, ops: seq<Ren>): Final
    decreases |ops|
  {
    if ops == [] || !KernelOk(s.k) || !CanRename(s.k, ops[0].p, ops[0].q) then Final(s, false)
    else
      var f := Processed(walk, s, Rename(ops[0].p, ops[0].q));
      if f.exited then f else OneByOne(walk, f.s, ops[1..])
  }

  /** All renames but the last are light, and none of them is in a directory that has left the
      trees while the events of the rename that took it away were still queued. */
  ghost predicate Queueable(walk: Walk, s: St, ops: seq<Ren>)
    decreases |ops|
  {
    && Synced(s) && Possible(s.k, ops)
    && (|ops| > 1 ==>
          && Light(s, ops[0].p, ops[0].q)
          && var t := Processed(walk, s, Rename(ops[0].p, ops[0].q)).s;
             AllSeen(DoOp(s.k, Rename(ops[0].p, ops[0].q)).0, t.k, ops[1..]) && Queueable(walk, t, ops[1..]))
  }

  /** It makes no difference that the events of all the renames are in the queue before the first is
      processed. */
  lemma {:induction false} TogetherIsOneByOne(walk: Walk, s: St, ops: seq<Ren>)
    requires Queueable(walk, s, ops)
    ensures var (k, evs) := Queued(s.k, ops); Drain(walk, s.(k := k), evs) == OneByOne(walk, s, ops)
    decreases |ops|
  {
    if ops == [] {
      DrainEmpty(walk, s);
    } else if |ops| == 1 {
      LastOne(walk, s, ops);
    } else {
      var (k1, e1) := DoOp(s.k, Rename(ops[0].p, ops[0].q));
      var (K, more) := Queued(k1, ops[1..]);
      var t := FirstOfMany(walk, s, ops, k1, e1, K, more);
      TogetherIsOneByOne(walk, t, ops[1..]);
    }
  }

  lemma {:induction false} LastOne(walk: Walk, s: St, ops: seq<Ren>)
    requires |ops| == 1 && Possible(s.k, ops)
    ensures var (k, evs) := Queued(s.k, ops); Drain(walk, s.(k := k), evs) == OneByOne(walk, s, ops)
  {
    assert ops[1..] == [];
    var (k1, e1) := DoOp(s.k, Rename(ops[0].p, ops[0].q));
    assert e1 + [] == e1;
  }

  lemma {:induction false} FirstOfMany(walk: Walk, s: St, ops: seq<Ren>, k1: Kernel, e1: seq<Event>, K: Kernel,
          more: seq<Event>) returns (t: St)
    requires Synced(s) && Possible(s.k, ops) && |ops| > 1 && Light(s, ops[0].p, ops[0].q)
    requires (k1, e1) == DoOp(s.k, Rename(ops[0].p, ops[0].q)) && (K, more) == Queued(k1, ops[1..])
    requires AllSeen(k1, Processed(walk, s, Rename(ops[0].p, ops[0].q)).s.k, ops[1..])
    ensures Processed(walk, s, Rename(ops[0].p, ops[0].q)) == Final(t, false)
    ensures Possible(t.k, ops[1..])
    ensures Drain(walk, s.(k := K), e1 + more) == Drain(walk, t.(k := Queued(t.k, ops[1..]).0), Queued(t.k, ops[1..]).1)
  {
    QueuedAhead(k1, ops[1..]);
    assert k1.nextCookie == s.k.nextCookie + 1;
    assert more != [] ==> more[0] in more;
    t := LightSteps(walk, s, ops[0].p, ops[0].q, k1, e1, K, more);
    QueuedFewer(k1, t.k, ops[1..]);
  }

  // ----- two renames: one out of the trees, and another one

  lemma {:induction false} OutLeaves(walk: Walk, s: St, p: Path, q: Path, k: Kernel) returns (t: St)
    requires Synced(s) && CanRename(s.k, p, q) && k == DoRename(s.k, p, q).0
    requires Watching(s.k, Parent(p)) && !Watching(s.k, Parent(q)) && !Flagged(s.k, p)
    ensures Processed(walk, s, Rename(p, q)) == Final(t, false) && Synced(t) && t.roots == s.roots
    ensures t.k.dirs == k.dirs && t.k.selfMoves == k.selfMoves
    ensures forall x :: Watching(k, x) && !(q <= x) ==> Watching(t.k, x)
  {
    LightStep(s, p, q);
    var from, to := RenameEvents(s.k, p, q);
    FirstCookie(s.k, p, q, from, to);
    RenameOut(walk, s, k, p, q, from);
    t := Processed(walk, s, Rename(p, q)).s;
    WatchedOutside(s, k, p, q);
  }

  lemma {:induction false} WatchedOutside(s: St, k: Kernel, p: Path, q: Path)
    requires Step(s, k, p, q)
    ensures forall x :: Watching(k, x) && !(q <= x) ==> Watching(s.k, x) && !(p <= x)
  {
    Outside(s, k, p, q);
  }

  lemma {:induction false} SeenAfterOut(s: St, k: Kernel, t: Kernel, p: Path, q: Path, p': Path, q': Path)
    requires Step(s, k, p, q) && KernelOk(t) && t.dirs == k.dirs && t.selfMoves == k.selfMoves && !Flagged(s.k, p)
    requires CanRename(k, p', q') && !(q <= Parent(p')) && !(q <= Parent(q'))
    requires forall x :: Watching(k, x) && !(q <= x) ==> Watching(t, x)
    ensures CanRename(t, p', q') && SameSeen(k, t, p', q')
  {
    if q <= p' {
      ParentBelow(q, p');
      assert Moved(p, p, q) == q;
    }
  }

  /** A directory leaves the trees, and another rename follows before the event is processed, in
      other directories; it may bring the same directory back. The cache agrees after both exactly
      if it would, had the first event been processed in between. */
  lemma {:induction false} OutThenOther(walk: Walk, s: St, p: Path, q: Path, p': Path, q': Path)
    requires Walks(walk) && Good(s) && CanRename(s.k, p, q) && !Flagged(s.k, p)
    requires Watching(s.k, Parent(p)) && !Watching(s.k, Parent(q)) && !Revives(s.roots, s.k, p, q)
    requires CanRename(DoRename(s.k, p, q).0, p', q') && !(q <= Parent(p')) && !(q <= Parent(q'))
    ensures var ops := [Ren(p, q), Ren(p', q')];
            && Possible(s.k, ops)
            && var t := Processed(walk, s, Rename(p, q)).s;
               && Good(t) && CanRename(t.k, p', q')
               && var (k, evs) := Queued(s.k, ops);
                  Ends(Drain(walk, s.(k := k), evs), t, DoOp(t.k, Rename(p', q')).0,
                       RootsAfter(t, Rename(p', q')), Harmless(t, Rename(p', q')))
  {
    OutStaysGood(walk, s, p, q);
    var t := OutThenOneByOne(walk, s, [Ren(p, q), Ren(p', q')]);
    OpAgrees(walk, t, Rename(p', q'));
  }

  /** Both renames together come to the second one after the first, which leads to t. */
  ghost predicate SecondOnly(walk: Walk, s: St, t: St, ops: seq<Ren>) {
    && |ops| == 2 && Possible(s.k, ops) && KernelOk(t.k) && CanRename(t.k, ops[1].p, ops[1].q)
    && var (k, evs) := Queued(s.k, ops);
       Drain(walk, s.(k := k), evs) == Processed(walk, t, Rename(ops[1].p, ops[1].q))
  }

  lemma {:induction false} OutStaysGood(walk: Walk, s: St, p: Path, q: Path)
    requires Walks(walk) && Good(s) && CanRename(s.k, p, q) && !Flagged(s.k, p)
    requires Watching(s.k, Parent(p)) && !Watching(s.k, Parent(q)) && !Revives(s.roots, s.k, p, q)
    ensures Good(Processed(walk, s, Rename(p, q)).s)
  {
    OpAgrees(walk, s, Rename(p, q));
    var t := OutLeaves(walk, s, p, q, DoRename(s.k, p, q).0);
  }

  lemma {:induction false} OutThenOneByOne(walk: Walk, s: St, ops: seq<Ren>) returns (t: St)
    requires |ops| == 2 && Synced(s) && CanRename(s.k, ops[0].p, ops[0].q) && !Flagged(s.k, ops[0].p)
    requires Watching(s.k, Parent(ops[0].p)) && !Watching(s.k, Parent(ops[0].q))
    requires CanRename(DoRename(s.k, ops[0].p, ops[0].q).0, ops[1].p, ops[1].q)
    requires !(ops[0].q <= Parent(ops[1].p)) && !(ops[0].q <= Parent(ops[1].q))
    ensures Processed(walk, s, Rename(ops[0].p, ops[0].q)) == Final(t, false) && SecondOnly(walk, s, t, ops)
  {
    var k;
    t, k := AfterOut(walk, s, ops[0].p, ops[0].q, ops[1].p, ops[1].q);
    Both(walk, s, t, ops, k);
  }

  lemma {:induction false} RenameOnly(k: Kernel, p: Path, q: Path, k1: Kernel)
    requires KernelOk(k) && CanRename(k, p, q) && k1 == DoRename(k, p, q).0
    ensures k1 == DoOp(k, Rename(p, q)).0
  {
  }

  lemma {:induction false} AfterOut(walk: Walk, s: St, p: Path, q: Path, p': Path, q': Path) returns (t: St, k: Kernel)
    requires Synced(s) && CanRename(s.k, p, q) && !Flagged(s.k, p)
    requires Watching(s.k, Parent(p)) && !Watching(s.k, Parent(q))
    requires CanRename(DoRename(s.k, p, q).0, p', q') && !(q <= Parent(p')) && !(q <= Parent(q'))
    ensures Processed(walk, s, Rename(p, q)) == Final(t, false) && Synced(t) && Light(s, p, q)
    ensures k == DoOp(s.k, Rename(p, q)).0 && KernelOk(k) && CanRename(k, p', q')
    ensures CanRename(t.k, p', q') && SameSeen(k, t.k, p', q')
  {
    k := DoRename(s.k, p, q).0;
    RenameOnly(s.k, p, q, k);
    t := OutLeaves(walk, s, p, q, k);
    LightStep(s, p, q);
    SeenAfterOut(s, k, t.k, p, q, p', q');
  }

  lemma {:induction false} Both(walk: Walk, s: St, t: St, ops: seq<Ren>, k: Kernel)
    requires |ops| == 2 && Synced(s) && Light(s, ops[0].p, ops[0].q) && k == DoOp(s.k, Rename(ops[0].p, ops[0].q)).0
    requires KernelOk(k) && CanRename(k, ops[1].p, ops[1].q)
    requires Processed(walk, s, Rename(ops[0].p, ops[0].q)) == Final(t, false) && Synced(t)
    requires CanRename(t.k, ops[1].p, ops[1].q) && SameSeen(k, t.k, ops[1].p, ops[1].q)
    ensures SecondOnly(walk, s, t, ops)
  {
    TwoQueueable(walk, s, t, ops, k);
    TogetherIsOneByOne(walk, s, ops);
  }

  lemma {:induction false} TwoQueueable(walk: Walk, s: St, t: St, ops: seq<Ren>, k: Kernel)
    requires |ops| == 2 && Synced(s) && Light(s, ops[0].p, ops[0].q) && k == DoOp(s.k, Rename(ops[0].p, ops[0].q)).0
    requires KernelOk(k) && CanRename(k, ops[1].p, ops[1].q)
    requires Processed(walk, s, Rename(ops[0].p, ops[0].q)) == Final(t, false) && Synced(t)
    requires CanRename(t.k, ops[1].p, ops[1].q) && SameSeen(k, t.k, ops[1].p, ops[1].q)
    ensures Queueable(walk, s, ops)
    ensures OneByOne(walk, s, ops) == Processed(walk, t, Rename(ops[1].p, ops[1].q))
  {
    OneQueueable(walk, k, t, ops[1..]);
  }

  lemma {:induction false} OneQueueable(walk: Walk, k: Kernel, t: St, ops: seq<Ren>)
    requires |ops| == 1 && KernelOk(k) && CanRename(k, ops[0].p, ops[0].q) && Synced(t)
    requires CanRename(t.k, ops[0].p, ops[0].q) && SameSeen(k, t.k, ops[0].p, ops[0].q)
    ensures AllSeen(k, t.k, ops) && Possible(k, ops) && Queueable(walk, t, ops)
    ensures OneByOne(walk, t, ops) == Processed(walk, t, Rename(ops[0].p, ops[0].q))
  {
    assert ops[1..] == [];
  }

  // ----- starting afresh

  /** The cache agrees, the roots ask for IN_MOVE_SELF, and nothing that the cache held remains. */
  ghost predicate Afresh(f: Final, s: St) {
    !f.exited && f.s.roots == s.roots && f.s.k.dirs == s.k.dirs && Agree(f.s) && TopFlagged(f.s)
  }

  lemma {:induction false} RebuiltAfresh(walk: Walk, s: St, buf: seq<Event>)
    requires Walks(walk) && KernelOk(s.k) && buf != []
    requires ProcessNext(walk, s, buf, false) == Rebuilt(Reinitialize(walk, s))
    ensures Afresh(Drain(walk, s, buf), s)
  {
    DrainEnds(walk, s, buf, Rebuilt(Reinitialize(walk, s)));
    ReinitializeAgrees(walk, s);
  }

  /** After the queue has overflowed, whatever the cache held and whatever is still in the buffer. */
  lemma {:induction false} OverflowRebuilds(walk: Walk, s: St, buf: seq<Event>)
    requires Walks(walk) && KernelOk(s.k) && buf != [] && buf[0].wd == -1 && Q_OVERFLOW in buf[0].mask
    ensures Afresh(Drain(walk, s, buf), s)
  {
    RebuiltAfresh(walk, s, buf);
  }

  /** After an event for a watch that is not in the cache, or a pair whose second one is. */
  lemma {:induction false} UnknownRebuilds(walk: Walk, s: St, buf: seq<Event>)
    requires Walks(walk) && KernelOk(s.k) && buf != [] && buf[0].wd >= 0 && IGNORED !in buf[0].mask
    requires (forall j :: 0 <= j < |s.slots| ==> s.slots[j].wd != buf[0].wd) ||
             (|buf| > 1 && buf[0].mask == {ISDIR, MOVED_FROM} && MOVED_TO in buf[1].mask &&
              buf[1].cookie == buf[0].cookie && forall j :: 0 <= j < |s.slots| ==> s.slots[j].wd != buf[1].wd)
    ensures Afresh(Drain(walk, s, buf), s)
  {
    RebuiltAfresh(walk, s, buf);
  }

  /** When a file system is unmounted, the kernel drops the watch: its slot is emptied, and the others
      stay in step. */
  lemma {:induction false} UnmountInSync(walk: Walk, s: St, k: Kernel, p: Path)
    requires Synced(s) && Watching(s.k, p) && k == s.k.(wds := s.k.wds - {s.k.dirs[p]})
    ensures var f := Drain(walk, s.(k := k), [Event(WdOf(s.k, p), {UNMOUNT}, 0, ""), IgnoredEvent(WdOf(s.k, p))]);
            !f.exited && f.s.roots == s.roots && f.s.k == k && InSync(f.s.slots, k)
  {
    FindsPath(s.slots, s.k, p);
    var wd := WdOf(s.k, p);
    var j := FindWatch(s.slots, wd);
    DropInSync(s.slots, s.k, k, j);
    var q := [Event(wd, {UNMOUNT}, 0, ""), IgnoredEvent(wd)];
    var s1 := s.(k := k, slots := s.slots[j := EMPTY_SLOT]);
    DrainStep(walk, s.(k := k), q, s1, 1, [], [IgnoredEvent(wd)]);
    DrainIgnored(walk, s1, [IgnoredEvent(wd)]);
  }
}
