/**
 namespaces_of: the scan that records namespaces in a map of entries linked by children
 lists, and the display of the recorded trees.
 */
module NamespacesSpec {
  import opened Wrappers

  // Device and inode of a namespace file. No namespace has the ID 0, 0, which stands for
  // the invisible owner, and is also the value of rootNS before a root is found.
  datatype Id = Id(device: nat, inode: nat)

  const INVIS := Id(0, 0)

  datatype Kind = Cgroup | Ipc | Mnt | Net | Pid | Time | User | Uts

  /** What the kernel answers: NS_GET_NSTYPE, and NS_GET_USERNS or (with --pidns)
      NS_GET_PARENT, where None is the failure with EPERM. A namespace is nested more deeply
      than its parent or owner. */
  datatype World = World(parent: Id -> Option<Id>, kind: Id -> Kind, depth: Id -> nat, pidns: bool)

  /** The topmost visible namespace of the hierarchy, as opposed to a namespace whose owner
      is not visible. */
  predicate IsTop(w: World, id: Id) {
    w.parent(id).None? && (w.kind(id) == User || w.pidns)
  }

  ghost predicate WellFounded(w: World) {
    && (forall id {:trigger w.parent(id)} :: w.parent(id).Some? ==>
          w.parent(id).value != INVIS && w.depth(w.parent(id).value) < w.depth(id))
    && (forall a, b {:trigger IsTop(w, a), IsTop(w, b)} ::
          a != INVIS && b != INVIS && IsTop(w, a) && IsTop(w, b) ==> a == b)
  }

  datatype Entry = Entry(kind: Kind, pids: seq<int>, children: seq<Id>)

  datatype Table = Table(list: map<Id, Entry>, root: Id)

  const NOTHING := Table(map[], INVIS)

  function AddPid(t: Table, id: Id, pid: int): Table
    requires id in t.list
  {
    if pid > 0 then t.(list := t.list[id := t.list[id].(pids := t.list[id].pids + [pid])]) else t
  }

  function AddChild(t: Table, id: Id, child: Id): Table
    requires id in t.list
  {
    t.(list := t.list[id := t.list[id].(children := t.list[id].children + [child])])
  }

  function AddEntry(t: Table, id: Id, kind: Kind): Table {
    t.(list := t.list[id := Entry(kind, [], [])])
  }

  function AddInvisible(t: Table): Table {
    if INVIS in t.list then t else AddEntry(t, INVIS, User)
  }

  /** addNamespace */
  function Add(w: World, t: Table, id: Id, pid: int): (r: Table)
    requires WellFounded(w)
    ensures id in r.list && t.list.Keys <= r.list.Keys
    decreases w.depth(id), 1
  {
    AddPid(if id in t.list then t else AddToList(w, t, id), id, pid)
  }

  /** addNamespaceToList */
  function AddToList(w: World, t: Table, id: Id): (r: Table)
    requires WellFounded(w)
    ensures id in r.list && t.list.Keys <= r.list.Keys
    decreases w.depth(id), 0
  {
    var t1 := AddEntry(t, id, w.kind(id));
    match w.parent(id)
    case None =>
      if IsTop(w, id) then t1.(root := id) else AddChild(AddInvisible(t1), INVIS, id)
    case Some(p) =>
      AddChild(Add(w, t1, p, -1), p, id)
  }

  /** One call per symlink that the scan opens; the pid is -1 for a bind mount. */
  datatype Call = Call(id: Id, pid: int)

  predicate Real(calls: seq<Call>) {
    forall i :: 0 <= i < |calls| ==> calls[i].id != INVIS
  }

  function Scan(w: World, calls: seq<Call>): Table
    requires WellFounded(w)
  {
    if calls == [] then NOTHING
    else
      var n := |calls| - 1;
      Add(w, Scan(w, calls[..n]), calls[n].id, calls[n].pid)
  }

  // ----- what the map should be

  /** Whose child an entry should be. */
  function Owner(w: World, id: Id): Option<Id> {
    if id == INVIS then None
    else if w.parent(id).Some? then w.parent(id)
    else if IsTop(w, id) then None
    else Some(INVIS)
  }

  function Rank(w: World, id: Id): nat {
    if id == INVIS then 0 else w.depth(id) + 1
  }

  ghost predicate NoDup(s: seq<Id>) {
    forall i, j :: 0 <= i < j < |s| ==> s[i] != s[j]
  }

  /** Every entry but those in skip is in exactly one children list, once: its owner's, which
      is in the map. The entries in skip are not yet in any list. */
  ghost predicate Linked(w: World, t: Table, skip: set<Id>) {
    && (forall c {:trigger Owner(w, c)} :: c in t.list && c !in skip && Owner(w, c).Some? ==>
          Owner(w, c).value in t.list)
    && (forall p, c {:trigger c in t.list[p].children} {:trigger t.list[p], Owner(w, c)} :: p in t.list ==>
          (c in t.list[p].children <==> c in t.list && c !in skip && Owner(w, c) == Some(p)))
    && (forall p :: p in t.list ==> NoDup(t.list[p].children))
  }

  /** rootNS is the topmost visible namespace if that is in the map. */
  ghost predicate Rooted(w: World, t: Table) {
    && (t.root != INVIS ==> t.root in t.list && IsTop(w, t.root))
    && (forall c :: c in t.list && c != INVIS && IsTop(w, c) ==> t.root == c)
  }

  ghost predicate Kinds(w: World, t: Table) {
    forall c :: c in t.list ==> t.list[c].kind == if c == INVIS then User else w.kind(c)
  }

  ghost predicate Forest(w: World, t: Table) {
    Linked(w, t, {}) && Rooted(w, t) && Kinds(w, t)
  }

  /** a is n, or an ancestor or owner of it (the invisible owner included). */
  predicate Above(w: World, a: Id, n: Id)
    requires WellFounded(w)
    decreases Rank(w, n)
  {
    a == n || (Owner(w, n).Some? && Above(w, a, Owner(w, n).value))
  }

  /** The end of the chain of owners: the topmost visible namespace, or the invisible owner. */
  function Topmost(w: World, n: Id): (r: Id)
    requires WellFounded(w)
    ensures Owner(w, r).None?
    decreases Rank(w, n)
  {
    if Owner(w, n).None? then n else Topmost(w, Owner(w, n).value)
  }

  function PidsOf(calls: seq<Call>, id: Id): seq<int> {
    if calls == [] then []
    else
      var n := |calls| - 1;
      PidsOf(calls[..n], id) + if calls[n].id == id && calls[n].pid > 0 then [calls[n].pid] else []
  }

  // ----- display

  /** A displayed entry and its indentation. */
  datatype Line = Line(id: Id, level: nat)

  predicate Shown(t: Table, shown: set<Kind>, id: Id)
    requires id in t.list
  {
    t.list[id].kind == User || t.list[id].kind in shown
  }

  /** The children of an entry are entries of higher rank. */
  ghost predicate Descending(w: World, t: Table, top: nat) {
    && (forall id :: id in t.list ==> Rank(w, id) <= top)
    && (forall p, c :: p in t.list && c in t.list[p].children ==> c in t.list && Rank(w, p) < Rank(w, c))
  }

  /** displayNamespaceTree */
  ghost function Tree(w: World, t: Table, top: nat, shown: set<Kind>, id: Id, level: nat): seq<Line>
    requires Descending(w, t, top) && id in t.list
    decreases top - Rank(w, id), |t.list[id].children| + 1
  {
    (if Shown(t, shown, id) then [Line(id, level)] else []) +
    Trees(w, t, top, shown, id, |t.list[id].children|, level + 1)
  }

  /** Its loop, over the first n children of id. */
  ghost function Trees(w: World, t: Table, top: nat, shown: set<Kind>, id: Id, n: nat, level: nat): seq<Line>
    requires Descending(w, t, top) && id in t.list && n <= |t.list[id].children|
    decreases top - Rank(w, id), n
  {
    if n == 0 then []
    else Trees(w, t, top, shown, id, n - 1, level) + Tree(w, t, top, shown, t.list[id].children[n - 1], level)
  }

  /** displayNamespaceHierarchies without --subtree. None is the nil dereference on a rootNS
      that is not in the map. */
  ghost function Display(w: World, t: Table, top: nat, shown: set<Kind>): Option<seq<Line>>
    requires Descending(w, t, top)
  {
    if t.root !in t.list then None
    else Some(Tree(w, t, top, shown, t.root, 0) + if INVIS in t.list then Tree(w, t, top, shown, INVIS, 0) else [])
  }

  function Times(lines: seq<Line>, id: Id): nat {
    if lines == [] then 0 else (if lines[0].id == id then 1 else 0) + Times(lines[1..], id)
  }
}
