/** The namespaceInfo structure of namespaces_of and its methods. */
module Namespaces {
  import opened Wrappers
  import opened NamespacesSpec
  import opened NamespacesProofs

  class NamespaceInfo {
    var nsList: map<Id, Entry>
    var rootNS: Id

    constructor ()
      ensures Look() == NOTHING
    {
      nsList, rootNS := map[], INVIS;
    }

    function Look(): Table
      reads this
    {
      Table(nsList, rootNS)
    }

    method AddNamespace(w: World, nsid: Id, pid: int) returns (id: Id)
      requires WellFounded(w)
      modifies this
      ensures id == nsid && Look() == Add(w, old(Look()), nsid, pid)
      decreases w.depth(nsid), 1
    {
      id := nsid;
      if nsid !in nsList {
        AddNamespaceToList(w, nsid);
      }
      if pid > 0 {
        nsList := nsList[nsid := nsList[nsid].(pids := nsList[nsid].pids + [pid])];
      }
    }

    method AddNamespaceToList(w: World, nsid: Id)
      requires WellFounded(w)
      modifies this
      ensures Look() == AddToList(w, old(Look()), nsid)
      decreases w.depth(nsid), 0
    {
      nsList := nsList[nsid := Entry(w.kind(nsid), [], [])];
      var owner := w.parent(nsid);
      if owner.None? {
        if w.kind(nsid) == User || w.pidns {
          rootNS := nsid;
        } else {
          if INVIS !in nsList {
            nsList := nsList[INVIS := Entry(User, [], [])];
          }
          nsList := nsList[INVIS := nsList[INVIS].(children := nsList[INVIS].children + [nsid])];
        }
      } else {
        var parent := AddNamespace(w, owner.value, -1);
        nsList := nsList[parent := nsList[parent].(children := nsList[parent].children + [nsid])];
      }
    }

    /** The calls of a whole scan: the map is then an exact forest of exactly the namespaces
        scanned and those above them, with the scanned PIDs. */
    method ScanAll(w: World, calls: seq<Call>)
      requires WellFounded(w) && Real(calls) && Look() == NOTHING
      modifies this
      ensures Look() == Scan(w, calls) && Forest(w, Look())
      ensures forall id :: id in nsList <==> Reached(w, calls, id)
      ensures forall id :: id in nsList ==> nsList[id].pids == PidsOf(calls, id)
    {
      for i := 0 to |calls|
        invariant Look() == Scan(w, calls[..i])
      {
        assert calls[..i + 1][..i] == calls[..i];
        var _ := AddNamespace(w, calls[i].id, calls[i].pid);
      }
      assert calls[..|calls|] == calls;
      ScanForest(w, calls);
      forall id | id in nsList
        ensures nsList[id].pids == PidsOf(calls, id)
      {
        PidsConserved(w, calls, id);
      }
    }

    method DisplayNamespaceTree(ghost w: World, ghost top: nat, shown: set<Kind>, nsid: Id, level: nat)
      returns (lines: seq<Line>)
      requires Descending(w, Look(), top) && nsid in nsList
      ensures lines == Tree(w, Look(), top, shown, nsid, level)
      decreases top - Rank(w, nsid)
    {
      lines := [];
      if nsList[nsid].kind == User || nsList[nsid].kind in shown {
        lines := [Line(nsid, level)];
      }
      ghost var own := lines;
      var children := nsList[nsid].children;
      for i := 0 to |children|
        invariant lines == own + Trees(w, Look(), top, shown, nsid, i, level + 1)
      {
        assert children[i] in nsList[nsid].children;
        var below := DisplayNamespaceTree(w, top, shown, children[i], level + 1);
        lines := lines + below;
      }
    }

    /** The default display. None stands for the nil dereference. */
    method DisplayNamespaceHierarchies(ghost w: World, ghost top: nat, shown: set<Kind>) returns (d: Option<seq<Line>>)
      requires Descending(w, Look(), top)
      ensures d == Display(w, Look(), top, shown)
    {
      if rootNS !in nsList {
        return None;
      }
      var lines := DisplayNamespaceTree(w, top, shown, rootNS, 0);
      assert lines + [] == lines;
      if INVIS in nsList {
        var more := DisplayNamespaceTree(w, top, shown, INVIS, 0);
        lines := lines + more;
      }
      return Some(lines);
    }
  }

  /** A run of the program with the default display. */
  method ShowNamespaces(w: World, calls: seq<Call>, shown: set<Kind>) returns (d: Option<seq<Line>>)
    requires WellFounded(w) && Real(calls)
    ensures ShowsOnce(w, Scan(w, calls), shown, d) <==> exists i :: 0 <= i < |calls| && Topmost(w, calls[i].id) != INVIS
  {
    var nsi := new NamespaceInfo();
    nsi.ScanAll(w, calls);
    DisplayedOnceExactly(w, calls, shown);
    d := nsi.DisplayNamespaceHierarchies(w, MaxRank(w, nsi.nsList.Keys), shown);
  }
}
