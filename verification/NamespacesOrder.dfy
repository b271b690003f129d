/**
 The order of the display: an owner before what it owns, and siblings in the order in which the
 scan found them. And what the topmost owners are, in terms of the kernel's answers.
 */
module NamespacesOrder {
  import opened Wrappers
  import opened NamespacesSpec
  import opened NamespacesProofs

  /** a is in the subtree of an earlier child than b, of the same owner. */
  ghost predicate Earlier(w: World, t: Table, a: Id, b: Id)
    requires WellFounded(w)
  {
    exists p, i, j ::
      p in t.list && 0 <= i < j < |t.list[p].children| &&
      Above(w, t.list[p].children[i], a) && Above(w, t.list[p].children[j], b)
  }

  ghost predicate Ordered(w: World, t: Table, lines: seq<Line>)
    requires WellFounded(w)
  {
    forall i, j :: 0 <= i < j < |lines| ==>
      Above(w, lines[i].id, lines[j].id) || Earlier(w, t, lines[i].id, lines[j].id)
  }

  ghost predicate AllBelow(w: World, r: Id, lines: seq<Line>)
    requires WellFounded(w)
  {
    forall i :: 0 <= i < |lines| ==> Above(w, r, lines[i].id)
  }

  ghost predicate BelowSome(w: World, cs: seq<Id>, n: nat, lines: seq<Line>)
    requires WellFounded(w) && n <= |cs|
  {
    forall i :: 0 <= i < |lines| ==> exists c :: 0 <= c < n && Above(w, cs[c], lines[i].id)
  }

  lemma {:induction false} SubtreeOrdered(w: World, t: Table, top: nat, shown: set<Kind>, r: Id, level: nat)
    requires WellFounded(w) && Forest(w, t) && Descending(w, t, top) && r in t.list
    ensures var lines := Tree(w, t, top, shown, r, level); Ordered(w, t, lines) && AllBelow(w, r, lines)
    decreases top - Rank(w, r), |t.list[r].children| + 1
  {
    var n := |t.list[r].children|;
    SubtreesOrdered(w, t, top, shown, r, n, level + 1);
    var lines := Trees(w, t, top, shown, r, n, level + 1);
    ChildrenBelow(w, t, r, lines);
    if Shown(t, shown, r) {
      OwnFirst(w, t, Line(r, level), lines);
    } else {
      assert [] + lines == lines;
    }
  }

  lemma {:induction false} ChildrenBelow(w: World, t: Table, r: Id, lines: seq<Line>)
    requires WellFounded(w) && Forest(w, t) && r in t.list
    requires BelowSome(w, t.list[r].children, |t.list[r].children|, lines)
    ensures AllBelow(w, r, lines)
  {
    forall i | 0 <= i < |lines|
      ensures Above(w, r, lines[i].id)
    {
      var c :| 0 <= c < |t.list[r].children| && Above(w, t.list[r].children[c], lines[i].id);
      assert t.list[r].children[c] in t.list[r].children;
      OneWay(w, r, t.list[r].children[c], lines[i].id);
    }
  }

  lemma {:induction false} OwnFirst(w: World, t: Table, own: Line, lines: seq<Line>)
    requires WellFounded(w) && Ordered(w, t, lines) && AllBelow(w, own.id, lines)
    ensures Ordered(w, t, [own] + lines) && AllBelow(w, own.id, [own] + lines)
  {
    var all := [own] + lines;
    assert Above(w, own.id, own.id);
    forall i, j | 0 <= i < j < |all|
      ensures Above(w, all[i].id, all[j].id) || Earlier(w, t, all[i].id, all[j].id)
    {
      assert all[j] == lines[j - 1];
      if i > 0 {
        assert all[i] == lines[i - 1];
      }
    }
  }

  lemma {:induction false} SubtreesOrdered(w: World, t: Table, top: nat, shown: set<Kind>, r: Id, n: nat, level: nat)
    requires WellFounded(w) && Forest(w, t) && Descending(w, t, top) && r in t.list && n <= |t.list[r].children|
    ensures var lines := Trees(w, t, top, shown, r, n, level);
            Ordered(w, t, lines) && BelowSome(w, t.list[r].children, n, lines)
    decreases top - Rank(w, r), n
  {
    if n > 0 {
      var c := t.list[r].children[n - 1];
      assert c in t.list[r].children;
      SubtreesOrdered(w, t, top, shown, r, n - 1, level);
      SubtreeOrdered(w, t, top, shown, c, level);
      NextChild(w, t, r, n, Trees(w, t, top, shown, r, n - 1, level), Tree(w, t, top, shown, c, level));
    }
  }

  lemma {:induction false} NextChild(w: World, t: Table, r: Id, n: nat, a: seq<Line>, b: seq<Line>)
    requires WellFounded(w) && r in t.list && 0 < n <= |t.list[r].children|
    requires Ordered(w, t, a) && BelowSome(w, t.list[r].children, n - 1, a)
    requires Ordered(w, t, b) && AllBelow(w, t.list[r].children[n - 1], b)
    ensures Ordered(w, t, a + b) && BelowSome(w, t.list[r].children, n, a + b)
  {
    var cs := t.list[r].children;
    forall i, j | 0 <= i < |a| && 0 <= j < |b|
      ensures Earlier(w, t, a[i].id, b[j].id)
    {
      assert exists c :: 0 <= c < n - 1 && Above(w, cs[c], a[i].id);
      var c :| 0 <= c < n - 1 && Above(w, cs[c], a[i].id);
      assert Above(w, cs[n - 1], b[j].id);
    }
  }

  /** Of two lines of a tree, the upper one is an owner of the lower one, or in the subtree of an
      earlier child: so that the subtree of an entry stands right behind the entry. */
  lemma {:induction false} DisplayOrdered(w: World, t: Table, top: nat, shown: set<Kind>, i: nat, j: nat)
    requires WellFounded(w) && Forest(w, t) && Descending(w, t, top) && t.root in t.list && t.root != INVIS
    requires i < j < |Display(w, t, top, shown).value|
    ensures var a, b := Display(w, t, top, shown).value[i].id, Display(w, t, top, shown).value[j].id;
            Above(w, a, b) || Earlier(w, t, a, b) || (Topmost(w, a) == t.root && Topmost(w, b) == INVIS)
  {
    SubtreeOrdered(w, t, top, shown, t.root, 0);
    var first, lines := Tree(w, t, top, shown, t.root, 0), Display(w, t, top, shown).value;
    if INVIS in t.list {
      SubtreeOrdered(w, t, top, shown, INVIS, 0);
      if i < |first| <= j {
        assert Owner(w, t.root).None? && Owner(w, INVIS).None?;
        OneTopmost(w, t.root, lines[i].id);
        OneTopmost(w, INVIS, lines[j].id);
      }
    }
  }

  // ----- children in the order of the scan

  /** Every entry stays, and its list of children is continued. */
  ghost predicate Extends(a: Table, b: Table) {
    forall p :: p in a.list ==> p in b.list && a.list[p].children <= b.list[p].children
  }

  /** Adding appends to children lists and drops nothing. */
  lemma {:induction false} AddAppends(w: World, t: Table, id: Id, pid: int)
    requires WellFounded(w)
    ensures Extends(t, Add(w, t, id, pid))
    decreases w.depth(id), 1
  {
    if id !in t.list {
      AddToListAppends(w, t, id);
    }
  }

  lemma {:induction false} AddToListAppends(w: World, t: Table, id: Id)
    requires WellFounded(w) && id !in t.list
    ensures Extends(t, AddToList(w, t, id))
    decreases w.depth(id), 0
  {
    var t1 := AddEntry(t, id, w.kind(id));
    if w.parent(id).Some? {
      AddAppends(w, t1, w.parent(id).value, -1);
    }
  }

  /** So the children of an entry stand in the order in which the scan first came to them. */
  lemma {:induction false} ScanAppends(w: World, calls: seq<Call>, n: nat)
    requires WellFounded(w) && n <= |calls|
    ensures Extends(Scan(w, calls[..n]), Scan(w, calls))
    decreases |calls|
  {
    if n < |calls| {
      var m := |calls| - 1;
      assert calls[..m][..n] == calls[..n];
      ScanAppends(w, calls[..m], n);
      AddAppends(w, Scan(w, calls[..m]), calls[m].id, calls[m].pid);
    } else {
      assert calls[..n] == calls;
    }
  }

  // ----- the topmost owner

  /** Where NS_GET_USERNS, or NS_GET_PARENT with --pidns, leads in the end. */
  function LastSeen(w: World, n: Id): Id
    requires WellFounded(w)
    decreases w.depth(n)
  {
    if w.parent(n).None? then n else LastSeen(w, w.parent(n).value)
  }

  /** A namespace has a visible topmost owner exactly if that is a user namespace, or a PID namespace
      where these are asked for. */
  lemma {:induction false} TopmostVisible(w: World, n: Id)
    requires WellFounded(w) && n != INVIS
    ensures Topmost(w, n) != INVIS <==> w.kind(LastSeen(w, n)) == User || w.pidns
    ensures Topmost(w, n) != INVIS ==> Topmost(w, n) == LastSeen(w, n)
    decreases w.depth(n)
  {
    if w.parent(n).Some? {
      TopmostVisible(w, w.parent(n).value);
    } else if !IsTop(w, n) {
      assert Owner(w, n) == Some(INVIS) && Topmost(w, INVIS) == INVIS;
    }
  }
}
