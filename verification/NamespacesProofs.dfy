/** The scan builds an exact forest, and the display shows it once. */
module NamespacesProofs {
  import opened Wrappers
  import opened NamespacesSpec

  // ----- the parts of an addition

  lemma {:induction false} EntryLinked(w: World, t: Table, id: Id, kind: Kind, skip: set<Id>)
    requires Linked(w, t, skip) && id !in t.list
    ensures Linked(w, AddEntry(t, id, kind), skip + {id})
    ensures Owner(w, id).None? ==> Linked(w, AddEntry(t, id, kind), skip)
  {
  }

  lemma {:induction false} ChildLinked(w: World, t: Table, p: Id, c: Id, skip: set<Id>)
    requires Linked(w, t, skip + {c}) && c in t.list && c !in skip && p in t.list && Owner(w, c) == Some(p)
    ensures Linked(w, AddChild(t, p, c), skip)
  {
    var r := AddChild(t, p, c);
    assert c !in t.list[p].children;
    assert r.list[p].children == t.list[p].children + [c];
  }

  lemma {:induction false} RootLinked(w: World, t: Table, c: Id, skip: set<Id>)
    requires Linked(w, t, skip + {c}) && Owner(w, c).None?
    ensures Linked(w, t.(root := c), skip)
  {
  }

  lemma {:induction false} PidLinked(w: World, t: Table, id: Id, pid: int, skip: set<Id>)
    requires Linked(w, t, skip) && Rooted(w, t) && Kinds(w, t) && id in t.list
    ensures var r := AddPid(t, id, pid); Linked(w, r, skip) && Rooted(w, r) && Kinds(w, r) && r.list.Keys == t.list.Keys
  {
  }

  /** Whatever is above an entry is in the map. */
  lemma {:induction false} AboveIn(w: World, t: Table, skip: set<Id>, a: Id, n: Id)
    requires WellFounded(w) && Linked(w, t, skip) && n in t.list && Above(w, a, n)
    requires forall s :: s in skip ==> Rank(w, s) > Rank(w, n)
    ensures a in t.list
    decreases Rank(w, n)
  {
    if a != n {
      AboveIn(w, t, skip, a, Owner(w, n).value);
    }
  }

  ghost predicate Grown(w: World, t: Table, r: Table, id: Id) {
    WellFounded(w) && forall x :: x in r.list <==> x in t.list || Above(w, x, id)
  }

  lemma {:induction false} AddKeeps(w: World, t: Table, id: Id, pid: int, skip: set<Id>)
    requires WellFounded(w) && Linked(w, t, skip) && Rooted(w, t) && Kinds(w, t)
    requires id != INVIS && forall s :: s in skip ==> Rank(w, s) > Rank(w, id)
    ensures var r := Add(w, t, id, pid); Linked(w, r, skip) && Rooted(w, r) && Kinds(w, r) && Grown(w, t, r, id)
    decreases w.depth(id), 1
  {
    if id in t.list {
      forall x | Above(w, x, id)
        ensures x in t.list
      {
        AboveIn(w, t, skip, x, id);
      }
      PidLinked(w, t, id, pid, skip);
    } else {
      AddToListKeeps(w, t, id, skip);
      PidLinked(w, AddToList(w, t, id), id, pid, skip);
    }
  }

  lemma {:induction false} AddToListKeeps(w: World, t: Table, id: Id, skip: set<Id>)
    requires WellFounded(w) && Linked(w, t, skip) && Rooted(w, t) && Kinds(w, t)
    requires id != INVIS && id !in t.list && forall s :: s in skip ==> Rank(w, s) > Rank(w, id)
    ensures var r := AddToList(w, t, id); Linked(w, r, skip) && Rooted(w, r) && Kinds(w, r) && Grown(w, t, r, id)
    decreases w.depth(id), 0
  {
    var t1 := AddEntry(t, id, w.kind(id));
    EntryLinked(w, t, id, w.kind(id), skip);
    if IsTop(w, id) {
      RootLinked(w, t1, id, skip);
    } else if w.parent(id).None? {
      InvisibleKeeps(w, t1, id, skip);
    } else {
      var p := w.parent(id).value;
      AddKeeps(w, t1, p, -1, skip + {id});
      ChildKeeps(w, t1, Add(w, t1, p, -1), p, id, skip);
    }
  }

  lemma {:induction false} InvisibleKeeps(w: World, t: Table, id: Id, skip: set<Id>)
    requires WellFounded(w) && Linked(w, t, skip + {id}) && Rooted(w, t) && Kinds(w, t)
    requires id in t.list && id !in skip && Owner(w, id) == Some(INVIS) && INVIS !in skip
    ensures var r := AddChild(AddInvisible(t), INVIS, id);
            Linked(w, r, skip) && Rooted(w, r) && Kinds(w, r) && Grown(w, t, r, id)
  {
    var t2 := AddInvisible(t);
    if INVIS !in t.list {
      EntryLinked(w, t, INVIS, User, skip + {id});
    }
    assert Grown(w, t, t2, INVIS);
    ChildKeeps(w, t, t2, INVIS, id, skip);
  }

  lemma {:induction false} ChildKeeps(w: World, t: Table, r: Table, p: Id, id: Id, skip: set<Id>)
    requires WellFounded(w) && Linked(w, r, skip + {id}) && Rooted(w, r) && Kinds(w, r) && Grown(w, t, r, p)
    requires id in t.list && id !in skip && Owner(w, id) == Some(p) && p in r.list
    ensures var r' := AddChild(r, p, id); Linked(w, r', skip) && Rooted(w, r') && Kinds(w, r') && Grown(w, t, r', id)
  {
    assert id in r.list;
    ChildLinked(w, r, p, id, skip);
  }

  function PidsAt(t: Table, x: Id): seq<int> {
    if x in t.list then t.list[x].pids else []
  }

  lemma {:induction false} AddPids(w: World, t: Table, id: Id, pid: int, x: Id)
    requires WellFounded(w)
    ensures PidsAt(Add(w, t, id, pid), x) == PidsAt(t, x) + if x == id && pid > 0 then [pid] else []
    decreases w.depth(id), 1
  {
    if id !in t.list {
      AddToListPids(w, t, id, x);
    }
  }

  lemma {:induction false} AddToListPids(w: World, t: Table, id: Id, x: Id)
    requires WellFounded(w) && id !in t.list
    ensures PidsAt(AddToList(w, t, id), x) == PidsAt(t, x)
    decreases w.depth(id), 0
  {
    if w.parent(id).Some? {
      AddPids(w, AddEntry(t, id, w.kind(id)), w.parent(id).value, -1, x);
    }
  }

  // ----- whole scans

  /** x is one of the scanned namespaces, or above one. */
  ghost predicate Reached(w: World, calls: seq<Call>, x: Id) {
    WellFounded(w) && exists i :: 0 <= i < |calls| && Above(w, x, calls[i].id)
  }

  lemma {:induction false} ReachedSnoc(w: World, calls: seq<Call>, c: Call, x: Id)
    requires WellFounded(w)
    ensures Reached(w, calls + [c], x) <==> Reached(w, calls, x) || Above(w, x, c.id)
  {
    var all := calls + [c];
    if Above(w, x, c.id) {
      assert all[|calls|] == c;
    } else if Reached(w, calls, x) {
      var i :| 0 <= i < |calls| && Above(w, x, calls[i].id);
      assert all[i] == calls[i];
    }
  }

  lemma {:induction false} ScanForest(w: World, calls: seq<Call>)
    requires WellFounded(w) && Real(calls)
    ensures Forest(w, Scan(w, calls))
    ensures forall x :: x in Scan(w, calls).list <==> Reached(w, calls, x)
    decreases |calls|
  {
    if calls != [] {
      var n := |calls| - 1;
      ScanForest(w, calls[..n]);
      AddKeeps(w, Scan(w, calls[..n]), calls[n].id, calls[n].pid, {});
      assert calls == calls[..n] + [calls[n]];
      forall x
        ensures x in Scan(w, calls).list <==> Reached(w, calls, x)
      {
        ReachedSnoc(w, calls[..n], calls[n], x);
      }
    }
  }

  /** Each entry but the top of a tree is listed once, by its owner, whose entry exists. */
  lemma {:induction false} ListedOnce(w: World, calls: seq<Call>, c: Id) returns (p: Id, i: nat)
    requires WellFounded(w) && Real(calls) && c in Scan(w, calls).list && Owner(w, c).Some?
    ensures var list := Scan(w, calls).list;
            && Owner(w, c) == Some(p) && p in list && i < |list[p].children| && list[p].children[i] == c
            && forall q, j :: q in list && 0 <= j < |list[q].children| && list[q].children[j] == c ==> q == p && j == i
  {
    ScanForest(w, calls);
    var list := Scan(w, calls).list;
    p := Owner(w, c).value;
    assert c in list[p].children;
    i :| 0 <= i < |list[p].children| && list[p].children[i] == c;
    forall q, j | q in list && 0 <= j < |list[q].children| && list[q].children[j] == c
      ensures q == p && j == i
    {
      assert c in list[q].children;
    }
  }

  /** Every recorded PID is in the entry of its namespace, in the order of the scan, and no other is. */
  lemma {:induction false} PidsConserved(w: World, calls: seq<Call>, id: Id)
    requires WellFounded(w)
    ensures PidsAt(Scan(w, calls), id) == PidsOf(calls, id)
    decreases |calls|
  {
    if calls != [] {
      var n := |calls| - 1;
      PidsConserved(w, calls[..n], id);
      AddPids(w, Scan(w, calls[..n]), calls[n].id, calls[n].pid, id);
    }
  }

  lemma {:induction false} TopmostAbove(w: World, n: Id)
    requires WellFounded(w)
    ensures Above(w, Topmost(w, n), n)
    decreases Rank(w, n)
  {
    if Owner(w, n).Some? {
      TopmostAbove(w, Owner(w, n).value);
    }
  }

  lemma {:induction false} OneTopmost(w: World, a: Id, n: Id)
    requires WellFounded(w) && Above(w, a, n) && Owner(w, a).None?
    ensures a == Topmost(w, n)
    decreases Rank(w, n)
  {
    if a != n {
      OneTopmost(w, a, Owner(w, n).value);
    }
  }

  /** A root is recorded exactly if some scanned namespace has a visible top. */
  lemma {:induction false} RootRecorded(w: World, calls: seq<Call>)
    requires WellFounded(w) && Real(calls)
    ensures Scan(w, calls).root != INVIS <==> exists i :: 0 <= i < |calls| && Topmost(w, calls[i].id) != INVIS
  {
    ScanForest(w, calls);
    var t := Scan(w, calls);
    if t.root != INVIS {
      assert Reached(w, calls, t.root);
      var i :| 0 <= i < |calls| && Above(w, t.root, calls[i].id);
      OneTopmost(w, t.root, calls[i].id);
    }
    if i :| 0 <= i < |calls| && Topmost(w, calls[i].id) != INVIS {
      TopmostAbove(w, calls[i].id);
      assert Reached(w, calls, Topmost(w, calls[i].id));
    }
  }

  // ----- display

  lemma {:induction false} TimesConcat(a: seq<Line>, b: seq<Line>, id: Id)
    ensures Times(a + b, id) == Times(a, id) + Times(b, id)
    decreases |a|
  {
    if a == [] {
      assert a + b == b;
    } else {
      assert (a + b)[1..] == a[1..] + b;
      TimesConcat(a[1..], b, id);
    }
  }

  ghost function MaxRank(w: World, ids: set<Id>): (r: nat)
    ensures forall id :: id in ids ==> Rank(w, id) <= r
  {
    if ids == {} then 0
    else
      var id :| id in ids;
      var r := MaxRank(w, ids - {id});
      if Rank(w, id) > r then Rank(w, id) else r
  }

  lemma {:induction false} OwnerBelow(w: World, c: Id)
    requires WellFounded(w)
    ensures Owner(w, c).Some? ==> Rank(w, Owner(w, c).value) < Rank(w, c)
  {
  }

  /** The display terminates: going to a child always goes to a deeper namespace. */
  lemma {:induction false} ScanDescends(w: World, calls: seq<Call>)
    requires WellFounded(w) && Real(calls)
    ensures var t := Scan(w, calls); Descending(w, t, MaxRank(w, t.list.Keys))
  {
    ScanForest(w, calls);
    ForestDescends(w, Scan(w, calls));
  }

  lemma {:induction false} ForestDescends(w: World, t: Table)
    requires WellFounded(w) && Forest(w, t)
    ensures Descending(w, t, MaxRank(w, t.list.Keys))
  {
    forall p, c | p in t.list && c in t.list[p].children
      ensures c in t.list && Rank(w, p) < Rank(w, c)
    {
      OwnerBelow(w, c);
    }
  }

  /** The child of r on the way to n. */
  function Toward(w: World, r: Id, n: Id): (c: Id)
    requires WellFounded(w) && Above(w, r, n) && r != n
    ensures Owner(w, c) == Some(r) && Above(w, c, n)
    decreases Rank(w, n)
  {
    if Owner(w, n) == Some(r) then n else Toward(w, r, Owner(w, n).value)
  }

  lemma {:induction false} AboveRank(w: World, a: Id, n: Id)
    requires WellFounded(w) && Above(w, a, n) && a != n
    ensures Rank(w, a) < Rank(w, n)
    decreases Rank(w, n)
  {
    if Owner(w, n) != Some(a) {
      AboveRank(w, a, Owner(w, n).value);
    }
  }

  lemma {:induction false} OneWay(w: World, r: Id, c: Id, n: Id)
    requires WellFounded(w) && Owner(w, c) == Some(r) && Above(w, c, n)
    ensures r != n && Above(w, r, n) && Toward(w, r, n) == c
    decreases Rank(w, n)
  {
    OwnerBelow(w, c);
    if c != n {
      AboveRank(w, c, n);
      OneWay(w, r, c, Owner(w, n).value);
    }
  }

  lemma {:induction false} TreeTimes(w: World, t: Table, top: nat, shown: set<Kind>, r: Id, level: nat, id: Id)
    requires WellFounded(w) && Forest(w, t) && Descending(w, t, top) && r in t.list && id in t.list
    ensures Times(Tree(w, t, top, shown, r, level), id) == if Above(w, r, id) && Shown(t, shown, id) then 1 else 0
    decreases top - Rank(w, r), |t.list[r].children| + 1
  {
    var n := |t.list[r].children|;
    var own := if Shown(t, shown, r) then [Line(r, level)] else [];
    TreesTimes(w, t, top, shown, r, n, level + 1, id);
    TimesConcat(own, Trees(w, t, top, shown, r, n, level + 1), id);
    if Above(w, r, id) && r != id {
      AboveIn(w, t, {}, Toward(w, r, id), id);
      assert t.list[r].children[..n] == t.list[r].children;
    }
  }

  lemma {:induction false} TreesTimes(w: World, t: Table, top: nat, shown: set<Kind>, r: Id, n: nat, level: nat, id: Id)
    requires WellFounded(w) && Forest(w, t) && Descending(w, t, top) && r in t.list && id in t.list
    requires n <= |t.list[r].children|
    ensures Times(Trees(w, t, top, shown, r, n, level), id) ==
            if Above(w, r, id) && r != id && Toward(w, r, id) in t.list[r].children[..n] && Shown(t, shown, id)
            then 1 else 0
    decreases top - Rank(w, r), n
  {
    if n > 0 {
      var cs := t.list[r].children;
      var c := cs[n - 1];
      assert c in cs;
      TreesTimes(w, t, top, shown, r, n - 1, level, id);
      TreeTimes(w, t, top, shown, c, level, id);
      TimesConcat(Trees(w, t, top, shown, r, n - 1, level), Tree(w, t, top, shown, c, level), id);
      TowardLast(w, cs, n, r, id);
    }
  }

  /** The way to id goes through the last of the first n children, or through one before it. */
  lemma {:induction false} TowardLast(w: World, cs: seq<Id>, n: nat, r: Id, id: Id)
    requires WellFounded(w) && 0 < n <= |cs| && NoDup(cs) && Owner(w, cs[n - 1]) == Some(r)
    ensures Above(w, cs[n - 1], id) ==>
            Above(w, r, id) && r != id && Toward(w, r, id) == cs[n - 1] && cs[n - 1] !in cs[..n - 1]
    ensures Above(w, r, id) && r != id && !Above(w, cs[n - 1], id) ==> Toward(w, r, id) != cs[n - 1]
    ensures forall c :: c in cs[..n] <==> c in cs[..n - 1] || c == cs[n - 1]
  {
    if Above(w, cs[n - 1], id) {
      OneWay(w, r, cs[n - 1], id);
    }
    assert cs[..n] == cs[..n - 1] + [cs[n - 1]];
  }

  /** How many owners an entry has above it. */
  function Level(w: World, id: Id): nat
    requires WellFounded(w)
    decreases Rank(w, id)
  {
    if Owner(w, id).None? then 0 else 1 + Level(w, Owner(w, id).value)
  }

  ghost predicate Indented(w: World, t: Table, shown: set<Kind>, lines: seq<Line>) {
    WellFounded(w) &&
    forall i :: 0 <= i < |lines| ==>
      lines[i].id in t.list && Shown(t, shown, lines[i].id) && lines[i].level == Level(w, lines[i].id)
  }

  lemma {:induction false} TreeIndented(w: World, t: Table, top: nat, shown: set<Kind>, r: Id)
    requires WellFounded(w) && Forest(w, t) && Descending(w, t, top) && r in t.list
    ensures Indented(w, t, shown, Tree(w, t, top, shown, r, Level(w, r)))
    decreases top - Rank(w, r), |t.list[r].children| + 1
  {
    TreesIndented(w, t, top, shown, r, |t.list[r].children|);
  }

  lemma {:induction false} ChildLevel(w: World, t: Table, r: Id, c: Id)
    requires WellFounded(w) && Forest(w, t) && r in t.list && c in t.list[r].children
    ensures c in t.list && Level(w, c) == Level(w, r) + 1
  {
  }

  lemma {:induction false} IndentedConcat(w: World, t: Table, shown: set<Kind>, a: seq<Line>, b: seq<Line>)
    requires Indented(w, t, shown, a) && Indented(w, t, shown, b)
    ensures Indented(w, t, shown, a + b)
  {
  }

  lemma {:induction false} TreesNext(w: World, t: Table, top: nat, shown: set<Kind>, r: Id, n: nat, level: nat)
    requires Descending(w, t, top) && r in t.list && 0 < n <= |t.list[r].children|
    requires t.list[r].children[n - 1] in t.list
    requires Indented(w, t, shown, Trees(w, t, top, shown, r, n - 1, level))
    requires Indented(w, t, shown, Tree(w, t, top, shown, t.list[r].children[n - 1], level))
    ensures Indented(w, t, shown, Trees(w, t, top, shown, r, n, level))
  {
    IndentedConcat(w, t, shown, Trees(w, t, top, shown, r, n - 1, level),
                   Tree(w, t, top, shown, t.list[r].children[n - 1], level));
  }

  lemma {:induction false} TreesIndented(w: World, t: Table, top: nat, shown: set<Kind>, r: Id, n: nat)
    requires WellFounded(w) && Forest(w, t) && Descending(w, t, top) && r in t.list && n <= |t.list[r].children|
    ensures Indented(w, t, shown, Trees(w, t, top, shown, r, n, Level(w, r) + 1))
    decreases top - Rank(w, r), n
  {
    if n > 0 {
      var c := t.list[r].children[n - 1];
      ChildLevel(w, t, r, c);
      TreesIndented(w, t, top, shown, r, n - 1);
      TreeIndented(w, t, top, shown, c);
      TreesNext(w, t, top, shown, r, n, Level(w, r) + 1);
    }
  }

  /** How often the default display shows an entry: once if a root is recorded, else twice. */
  lemma {:induction false} DisplayTimes(w: World, t: Table, top: nat, shown: set<Kind>, id: Id)
    requires WellFounded(w) && Forest(w, t) && Descending(w, t, top) && t.root in t.list && id in t.list
    ensures Times(Display(w, t, top, shown).value, id) ==
            if !Shown(t, shown, id) then 0 else if t.root != INVIS then 1 else 2
  {
    var a := Tree(w, t, top, shown, t.root, 0);
    var b := if INVIS in t.list then Tree(w, t, top, shown, INVIS, 0) else [];
    TimesConcat(a, b, id);
    TreeTimes(w, t, top, shown, t.root, 0, id);
    TopmostAbove(w, id);
    AboveIn(w, t, {}, Topmost(w, id), id);
    if Above(w, t.root, id) {
      OneTopmost(w, t.root, id);
    }
    if INVIS in t.list {
      TreeTimes(w, t, top, shown, INVIS, 0, id);
      if Above(w, INVIS, id) {
        OneTopmost(w, INVIS, id);
      }
    }
  }

  ghost predicate ShowsOnce(w: World, t: Table, shown: set<Kind>, d: Option<seq<Line>>) {
    && d.Some? && Indented(w, t, shown, d.value)
    && forall id :: id in t.list ==>
         Times(d.value, id) == if t.list[id].kind == User || t.list[id].kind in shown then 1 else 0
  }

  lemma {:induction false} DisplayShowsOnce(w: World, t: Table, top: nat, shown: set<Kind>)
    requires WellFounded(w) && Forest(w, t) && Descending(w, t, top) && t.root != INVIS
    ensures ShowsOnce(w, t, shown, Display(w, t, top, shown))
  {
    TreeIndented(w, t, top, shown, t.root);
    if INVIS in t.list {
      TreeIndented(w, t, top, shown, INVIS);
    }
    forall id | id in t.list
      ensures Times(Display(w, t, top, shown).value, id) == if Shown(t, shown, id) then 1 else 0
    {
      DisplayTimes(w, t, top, shown, id);
    }
  }

  /** The default display shows every entry of a selected kind once, indented by its depth, and
      nothing else, exactly if the scan came across a namespace whose topmost owner is visible.
      Otherwise rootNS is still the ID of the invisible owner: its tree is shown twice, or there
      is no entry for it. */
  lemma {:induction false} DisplayedOnceExactly(w: World, calls: seq<Call>, shown: set<Kind>)
    requires WellFounded(w) && Real(calls)
    ensures var t := Scan(w, calls); Descending(w, t, MaxRank(w, t.list.Keys))
    ensures var t := Scan(w, calls);
            ShowsOnce(w, t, shown, Display(w, t, MaxRank(w, t.list.Keys), shown)) <==>
            exists i :: 0 <= i < |calls| && Topmost(w, calls[i].id) != INVIS
  {
    var t := Scan(w, calls);
    var top := MaxRank(w, t.list.Keys);
    ScanForest(w, calls);
    ForestDescends(w, t);
    RootRecorded(w, calls);
    if t.root != INVIS {
      DisplayShowsOnce(w, t, top, shown);
    } else if t.root in t.list {
      DisplayTimes(w, t, top, shown, INVIS);
    }
  }

  /** Both failures occur. When nothing is scanned there is no entry to display. */
  lemma {:induction false} NothingScanned(w: World, shown: set<Kind>)
    requires WellFounded(w)
    ensures Descending(w, Scan(w, []), 0) && Display(w, Scan(w, []), 0, shown).None?
  {
  }

  /** A namespace with an invisible owner, scanned alone: the whole display is shown twice. */
  lemma {:induction false} OrphanShownTwice(w: World, id: Id, pid: int, shown: set<Kind>)
    requires WellFounded(w) && id != INVIS && w.parent(id).None? && !IsTop(w, id)
    ensures var t := Scan(w, [Call(id, pid)]);
            && Descending(w, t, MaxRank(w, t.list.Keys)) && t.root in t.list && id in t.list
            && INVIS in t.list && Times(Display(w, t, MaxRank(w, t.list.Keys), shown).value, INVIS) == 2
            && forall x :: x in t.list ==>
                 Times(Display(w, t, MaxRank(w, t.list.Keys), shown).value, x) == if Shown(t, shown, x) then 2 else 0
  {
    var calls := [Call(id, pid)];
    var t := Scan(w, calls);
    ScanDescends(w, calls);
    ScanForest(w, calls);
    RootRecorded(w, calls);
    assert Topmost(w, id) == INVIS;
    assert calls[0].id == id && Above(w, id, id) && Above(w, INVIS, id);
    assert Reached(w, calls, id) && Reached(w, calls, INVIS);
    forall x | x in t.list
      ensures Times(Display(w, t, MaxRank(w, t.list.Keys), shown).value, x) == if Shown(t, shown, x) then 2 else 0
    {
      DisplayTimes(w, t, MaxRank(w, t.list.Keys), shown, x);
    }
  }
}
