/**
 The capability trie: nodes on the heap, linked by growing child arrays, changed in place by
 one walk from the root. It implements a finite map from byte strings to (key, mod) in which
 the first insertion wins; the ghost map `at` gives the node of every path.
 */
module CapTrie {
  import opened Utf8

  datatype Cap = Cap(key: nat, mod: bv8)
  type Caps = map<seq<Byte>, Cap>

  // ----- the map that the trie implements

  /** p is a prefix of a capability. */
  predicate OnPath(caps: Caps, p: seq<Byte>) {
    exists c :: c in caps && p <= c
  }

  /** cap_trie_add: nothing for an empty capability, and a collision changes nothing. */
  function Insert(caps: Caps, c: seq<Byte>, v: Cap): Caps {
    if c == [] || c in caps then caps else caps[c := v]
  }

  function InsertAll(list: seq<(seq<Byte>, Cap)>): Caps {
    if list == [] then map[]
    else Insert(InsertAll(list[..|list| - 1]), list[|list| - 1].0, list[|list| - 1].1)
  }

  lemma {:induction false} AddedKeys(list: seq<(seq<Byte>, Cap)>, c: seq<Byte>)
    ensures c in InsertAll(list) <==> c != [] && exists i :: 0 <= i < |list| && list[i].0 == c
  {
    if list != [] {
      var n := |list| - 1;
      AddedKeys(list[..n], c);
      assert forall i :: 0 <= i < n ==> list[..n][i] == list[i];
      if i :| 0 <= i < n && list[i].0 == c {
        assert list[..n][i].0 == c;
      }
    }
  }

  /** After any sequence of adds, each capability carries the value of its first insertion. */
  lemma {:induction false} FirstWins(list: seq<(seq<Byte>, Cap)>, i: nat)
    requires i < |list| && list[i].0 != [] && forall j :: 0 <= j < i ==> list[j].0 != list[i].0
    ensures list[i].0 in InsertAll(list) && InsertAll(list)[list[i].0] == list[i].1
    decreases |list|
  {
    var n := |list| - 1;
    if i < n {
      assert forall j :: 0 <= j < n ==> list[..n][j] == list[j];
      FirstWins(list[..n], i);
    } else {
      AddedKeys(list[..n], list[i].0);
    }
  }

  /** How far a walk down the trie gets in buf, from depth n on. */
  function DepthFrom(caps: Caps, buf: seq<Byte>, n: nat): (r: nat)
    requires n <= |buf|
    ensures n <= r <= |buf|
    ensures r > n ==> OnPath(caps, buf[..r])
    ensures r < |buf| ==> !OnPath(caps, buf[..r + 1])
    decreases |buf| - n
  {
    if n < |buf| && OnPath(caps, buf[..n + 1]) then DepthFrom(caps, buf, n + 1) else n
  }

  /** The length of the longest prefix of buf that is a prefix of a capability. */
  function Depth(caps: Caps, buf: seq<Byte>): (r: nat)
    ensures r <= |buf|
  {
    DepthFrom(caps, buf, 0)
  }

  lemma {:induction false} PrefixOnPath(caps: Caps, buf: seq<Byte>, m: nat, n: nat)
    requires m <= n <= |buf| && OnPath(caps, buf[..n])
    ensures OnPath(caps, buf[..m])
  {
    var c :| c in caps && buf[..n] <= c;
    assert buf[..m] == buf[..n][..m];
    assert buf[..m] <= c;
  }

  lemma {:induction false} DepthIsLongest(caps: Caps, buf: seq<Byte>)
    ensures forall n :: Depth(caps, buf) < n <= |buf| ==> !OnPath(caps, buf[..n])
  {
    var d := Depth(caps, buf);
    forall n | d < n <= |buf|
      ensures !OnPath(caps, buf[..n])
    {
      if OnPath(caps, buf[..n]) {
        PrefixOnPath(caps, buf, d + 1, n);
      }
    }
  }

  lemma {:induction false} ShorterOnPath(caps: Caps, p: seq<Byte>, b: Byte)
    requires OnPath(caps, p + [b])
    ensures OnPath(caps, p)
  {
    var c :| c in caps && p + [b] <= c;
    assert p <= c;
  }

  lemma {:induction false} ProperPrefix(p: seq<Byte>, c: seq<Byte>)
    requires p <= c && p != c
    ensures |p| < |c| && c[..|p| + 1] <= c && c[..|p| + 1][..|p|] == p
  {
    assert p == c[..|p|] && c == c[..|c|];
  }

  datatype Match = Found(cap: Cap, length: nat) | NeedMore | NoMatch

  /** extract_esc_cap */
  function MatchCap(caps: Caps, buf: seq<Byte>): (m: Match)
    ensures m.Found? ==> m.length <= |buf|
  {
    var d := Depth(caps, buf);
    if buf[..d] in caps then Found(caps[buf[..d]], d)
    else if OnPath(caps, buf[..d]) && |buf| <= d then NeedMore
    else NoMatch
  }

  /** It succeeds exactly when the longest prefix of the input that starts any capability is
      one itself, so at most one length can match. */
  lemma {:induction false} FoundExactly(caps: Caps, buf: seq<Byte>, n: nat)
    requires n <= |buf|
    ensures MatchCap(caps, buf).Found? && MatchCap(caps, buf).length == n <==>
            buf[..n] in caps && forall m, c :: n < m <= |buf| && c in caps ==> !(buf[..m] <= c)
    ensures MatchCap(caps, buf).Found? && MatchCap(caps, buf).length == n ==>
            MatchCap(caps, buf).cap == caps[buf[..n]]
  {
    DepthIsLongest(caps, buf);
    assert buf[..n] in caps ==> OnPath(caps, buf[..n]);
  }

  /** It asks for more exactly when the whole input is a proper prefix of a capability and not
      one itself. */
  lemma {:induction false} NeedMoreExactly(caps: Caps, buf: seq<Byte>)
    ensures MatchCap(caps, buf).NeedMore? <==> buf !in caps && exists c :: c in caps && buf < c
  {
    DepthIsLongest(caps, buf);
    assert buf[..|buf|] == buf;
    if OnPath(caps, buf) && buf !in caps {
      var c :| c in caps && buf <= c;
      ProperPrefix(buf, c);
      assert buf < c;
    }
    if c :| c in caps && buf < c {
      assert buf <= c;
      assert OnPath(caps, buf[..|buf|]);
    }
  }

  /** Not the longest capability that the input starts with: a longer capability begun and
      not finished hides a shorter one. */
  lemma {:induction false} LongerHidesShorter(v: Cap, w: Cap)
    ensures var caps := map[[27, 79] := v, [27, 79, 80, 81] := w];
            [27, 79] in caps && MatchCap(caps, [27, 79, 80, 120]) == NoMatch
  {
    var caps: Caps := map[[27, 79] := v, [27, 79, 80, 81] := w];
    var buf: seq<Byte> := [27, 79, 80, 120];
    assert [27, 79, 80, 81] in caps;
    assert buf[..3] == [27, 79, 80] <= [27, 79, 80, 81];
    assert OnPath(caps, buf[..3]);
    DepthIsLongest(caps, buf);
    assert buf[..4] == buf && buf[3] == 120;
  }

  // ----- the nodes

  class Node {
    const c: Byte
    ghost const path: seq<Byte>  // the characters from the root to this node
    var children: seq<Node>
    var isLeaf: bool
    var key: nat
    var mod: bv8

    constructor (c: Byte, ghost path: seq<Byte>)
      ensures this.c == c && this.path == path && children == [] && !isLeaf && key == 0 && mod == 0
    {
      this.c := c;
      this.path := path;
      children := [];
      isLeaf, key, mod := false, 0, 0;
    }

    /** The child with this character, if any. */
    method Child(c: Byte) returns (r: Node?)
      ensures r == null ==> forall j :: 0 <= j < |children| ==> children[j].c != c
      ensures r != null ==> r in children && r.c == c
    {
      var j := 0;
      while j < |children|
        invariant j <= |children|
        invariant forall i :: 0 <= i < j ==> children[i].c != c
      {
        if children[j].c == c {
          return children[j];
        }
        j := j + 1;
      }
      return null;
    }
  }

  type Nodes = map<seq<Byte>, Node>

  function Init(p: seq<Byte>): seq<Byte>
    requires p != []
  {
    p[..|p| - 1]
  }

  /** What a node holds. */
  datatype NodeVal = NodeVal(children: seq<Node>, isLeaf: bool, key: nat, mod: bv8)
  type View = map<seq<Byte>, NodeVal>

  ghost function Look(at: Nodes): (v: View)
    reads at.Values
  {
    map p | p in at :: NodeVal(at[p].children, at[p].isLeaf, at[p].key, at[p].mod)
  }

  /** n is the node one step below p. */
  ghost predicate Linked(at: Nodes, p: seq<Byte>, n: Node) {
    n.path == p + [n.c] && n.path in at && at[n.path] == n
  }

  /** The nodes form a tree in which `at` gives each path its own node. */
  ghost predicate Tree(root: Node, at: Nodes, v: View) {
    && v.Keys == at.Keys && [] in at && at[[]] == root
    && (forall p {:trigger at[p]} :: p in at ==> at[p].path == p)
    && (forall p, j {:trigger v[p].children[j]} :: p in v && 0 <= j < |v[p].children| ==>
          Linked(at, p, v[p].children[j]))
    && (forall q {:trigger Init(q)} :: q in at && q != [] ==> Init(q) in v && at[q] in v[Init(q)].children)
  }

  /** The leaf marks are the map's entries. */
  ghost predicate Labelled(v: View, caps: Caps) {
    && (forall p :: p in caps ==> p in v)
    && (forall p {:trigger v[p]} :: p in v ==> (v[p].isLeaf <==> p in caps))
    && (forall p {:trigger v[p]} :: p in v && p in caps ==> caps[p] == Cap(v[p].key, v[p].mod))
    && [] !in caps
  }

  /** A new node below p. */
  ghost function Grow(v: View, p: seq<Byte>, n: Node): View
    requires p in v
  {
    v[p := v[p].(children := v[p].children + [n])][n.path := NodeVal([], false, 0, 0)]
  }

  lemma {:induction false} Grown(root: Node, at: Nodes, v: View, p: seq<Byte>, n: Node)
    requires Tree(root, at, v) && p in at && n.path == p + [n.c] && n.path !in at
    ensures Tree(root, at[n.path := n], Grow(v, p, n))
  {
    var q := n.path;
    var at', v' := at[q := n], Grow(v, p, n);
    assert Init(q) == p;
    forall x, j | x in v' && 0 <= j < |v'[x].children|
      ensures Linked(at', x, v'[x].children[j])
    {
      if !(x == p && j == |v[p].children|) {
        assert x != q && v'[x].children[j] == v[x].children[j];
        assert Linked(at, x, v[x].children[j]);
      }
    }
    forall x | x in at' && x != []
      ensures Init(x) in v' && at'[x] in v'[Init(x)].children
    {
      if x == q {
        assert v'[p].children[|v[p].children|] == n;
      } else {
        assert at[x] in v[Init(x)].children;
      }
    }
  }

  lemma {:induction false} GrownLabels(v: View, caps: Caps, p: seq<Byte>, n: Node)
    requires Labelled(v, caps) && p in v && n.path !in v
    ensures Labelled(Grow(v, p, n), caps)
  {
  }

  /** The node at c becomes a leaf. */
  ghost function Mark(v: View, c: seq<Byte>, k: Cap): View
    requires c in v
  {
    v[c := v[c].(isLeaf := true, key := k.key, mod := k.mod)]
  }

  lemma {:induction false} Marked(root: Node, at: Nodes, v: View, c: seq<Byte>, k: Cap)
    requires Tree(root, at, v) && c in at
    ensures Tree(root, at, Mark(v, c, k))
  {
    var v' := Mark(v, c, k);
    forall x, j | x in v' && 0 <= j < |v'[x].children|
      ensures Linked(at, x, v'[x].children[j])
    {
      assert v'[x].children[j] == v[x].children[j];
    }
    forall q | q in at && q != []
      ensures Init(q) in v' && at[q] in v'[Init(q)].children
    {
      assert v'[Init(q)].children == v[Init(q)].children;
    }
  }

  lemma {:induction false} MarkedLabels(v: View, caps: Caps, c: seq<Byte>, k: Cap)
    requires Labelled(v, caps) && c in v && c != []
    ensures Labelled(Mark(v, c, k), caps[c := k])
  {
  }

  // ----- what one assignment does to the view of the nodes

  /** Each path has its own node. */
  ghost predicate OwnNodes(at: Nodes) {
    forall p {:trigger at[p]} :: p in at ==> at[p].path == p
  }

  method SetLeaf(ghost at: Nodes, ghost c: seq<Byte>, node: Node, key: nat, mod: bv8)
    requires OwnNodes(at) && c in at && node == at[c]
    modifies node`isLeaf, node`key, node`mod
    ensures Look(at) == Mark(old(Look(at)), c, Cap(key, mod))
  {
    node.isLeaf := true;
    node.key := key;
    node.mod := mod;
  }

  method Append(ghost at: Nodes, ghost p: seq<Byte>, node: Node, n: Node)
    requires OwnNodes(at) && p in at && node == at[p] && n.path !in at
    requires n.children == [] && !n.isLeaf && n.key == 0 && n.mod == 0
    modifies node`children
    ensures Look(at[n.path := n]) == Grow(old(Look(at)), p, n)
  {
    node.children := node.children + [n];
  }

  ghost predicate AllReached(nodes: set<seq<Byte>>, cs: Caps) {
    forall p {:trigger OnPath(cs, p)} :: p in nodes ==> p == [] || OnPath(cs, p)
  }

  lemma {:induction false} NextPrefix(cap: seq<Byte>, i: nat)
    requires i < |cap|
    ensures cap[..i + 1] == cap[..i] + [cap[i]] && cap[..i] + [cap[i]] <= cap
  {
  }

  class Trie {
    const root: Node
    ghost var at: Nodes
    ghost var caps: Caps

    ghost predicate Formed()
      reads this, at.Values
    {
      Tree(root, at, Look(at)) && Labelled(Look(at), caps)
    }

    ghost predicate Valid()
      reads this, at.Values
    {
      Formed() && AllReached(at.Keys, caps)
    }

    constructor ()
      ensures Valid() && caps == map[] && fresh(at.Values)
    {
      root := new Node(0, []);
      caps := map[];
      new;
      at := map[[] := root];
    }

    /** cap_trie_find: the deepest node on the way, and its depth. */
    method Find(buf: seq<Byte>) returns (last: Node, depth: nat)
      requires Valid()
      ensures depth == Depth(caps, buf) && buf[..depth] in at && last == at[buf[..depth]]
    {
      var node := root;
      last, depth := node, 0;
      var i := 0;
      while i < |buf|
        invariant i <= |buf| && depth == i && last == node
        invariant buf[..i] in at && node == at[buf[..i]]
        invariant Depth(caps, buf) == DepthFrom(caps, buf, i)
      {
        var next := node.Child(buf[i]);
        OneStep(buf, i, next);
        if next == null {
          return;
        }
        node := next;
        last := node;
        depth := depth + 1;
        i := i + 1;
        if node.isLeaf && |node.children| < 1 {
          DeadEnd(buf, i);
          break;
        }
      }
    }

    lemma {:induction false} OneStep(buf: seq<Byte>, i: nat, next: Node?)
      requires Valid() && i < |buf| && buf[..i] in at
      requires next == null ==> forall j :: 0 <= j < |at[buf[..i]].children| ==> at[buf[..i]].children[j].c != buf[i]
      requires next != null ==> next in at[buf[..i]].children && next.c == buf[i]
      ensures DepthFrom(caps, buf, i) == if next == null then i else DepthFrom(caps, buf, i + 1)
      ensures next != null ==> buf[..i + 1] in at && at[buf[..i + 1]] == next
    {
      assert buf[..i + 1] == buf[..i] + [buf[i]];
      PathOrNot(buf[..i], buf[i], next);
    }

    lemma {:induction false} DeadEnd(buf: seq<Byte>, i: nat)
      requires Valid() && i <= |buf| && buf[..i] in at && at[buf[..i]].children == []
      ensures DepthFrom(caps, buf, i) == i
    {
      if i < |buf| {
        assert buf[..i + 1] == buf[..i] + [buf[i]];
        PathOrNot(buf[..i], buf[i], null);
      }
    }

    lemma {:induction false} HasChild(p: seq<Byte>, b: Byte)
      requires Formed() && p in at
      ensures p + [b] in at ==> exists j :: 0 <= j < |at[p].children| && at[p].children[j].c == b
    {
      var q, v := p + [b], Look(at);
      assert Init(q) == p;
      if q in at {
        var j :| 0 <= j < |v[p].children| && v[p].children[j] == at[q];
        assert Linked(at, p, v[p].children[j]) && at[q].path == q;
        assert q[|p|] == b;
      }
    }

    /** A path in the trie has the node that its last step leads to, or it is no path. */
    lemma {:induction false} PathOrNot(p: seq<Byte>, b: Byte, next: Node?)
      requires Formed() && p in at
      requires next == null ==> forall j :: 0 <= j < |at[p].children| ==> at[p].children[j].c != b
      requires next != null ==> next in at[p].children && next.c == b
      ensures next == null ==> !OnPath(caps, p + [b]) && p + [b] !in at
      ensures next != null ==> p + [b] in at && at[p + [b]] == next
      ensures Valid() && next != null ==> OnPath(caps, p + [b])
    {
      var q, v := p + [b], Look(at);
      HasChild(p, b);
      if next == null {
        if OnPath(caps, q) {
          PrefixesInTree(q);
        }
      } else {
        var j :| 0 <= j < |v[p].children| && v[p].children[j] == next;
        assert Linked(at, p, v[p].children[j]);
      }
    }

    lemma {:induction false} PrefixesInTree(q: seq<Byte>)
      requires Formed() && OnPath(caps, q)
      ensures q in at
    {
      var c :| c in caps && q <= c;
      PrefixInTree(q, c);
    }

    lemma {:induction false} PrefixInTree(q: seq<Byte>, c: seq<Byte>)
      requires Formed() && c in at && q <= c
      ensures q in at
      decreases |c|
    {
      if q != c {
        assert q <= Init(c);
        PrefixInTree(q, Init(c));
      }
    }

    /** A node that is not a leaf is on the way to one exactly if it has children. */
    lemma {:induction false} BranchesOn(p: seq<Byte>)
      requires Valid() && p in at && p !in caps
      ensures at[p].children != [] <==> OnPath(caps, p)
    {
      if at[p].children != [] {
        var n := at[p].children[0];
        PathOrNot(p, n.c, n);
        ShorterOnPath(caps, p, n.c);
      }
      if OnPath(caps, p) {
        LeadsOn(p);
      }
    }

    lemma {:induction false} LeadsOn(p: seq<Byte>)
      requires Formed() && p in at && p !in caps && OnPath(caps, p)
      ensures at[p].children != []
    {
      var c :| c in caps && p <= c;
      ProperPrefix(p, c);
      PrefixInTree(c[..|p| + 1], c);
      assert Init(c[..|p| + 1]) == p;
    }

    /** The walk of cap_trie_add: it finds or makes the node of every prefix of cap. */
    method Walk(cap: seq<Byte>) returns (node: Node)
      requires Formed()
      modifies this`at, at.Values
      ensures Formed() && cap in at && node == at[cap]
      ensures forall p :: p in at ==> (p in old(at) && at[p] == old(at)[p]) || (p <= cap && fresh(at[p]))
    {
      node := root;
      var i := 0;
      assert cap[..0] == [];
      while i < |cap|
        invariant i <= |cap| && Formed()
        invariant cap[..i] in at && node == at[cap[..i]]
        invariant forall p :: p in at ==> (p in old(at) && at[p] == old(at)[p]) || (p <= cap && fresh(at[p]))
      {
        NextPrefix(cap, i);
        node := Step(cap[..i], cap[i], node);
        i := i + 1;
      }
      assert cap[..|cap|] == cap;
    }

    /** cap_trie_add. The result is false for TB_ERR_CAP_COLLISION, which changes nothing. */
    method Add(cap: seq<Byte>, key: nat, mod: bv8) returns (ok: bool)
      requires Valid()
      modifies this, at.Values
      ensures Valid() && fresh(at.Values - old(at.Values))
      ensures caps == Insert(old(caps), cap, Cap(key, mod))
      ensures ok == (cap !in old(caps))
    {
      if |cap| <= 0 {
        return true;  // nothing to do for empty capabilities
      }
      ghost var before := at.Keys;
      var node := Walk(cap);
      assert node.isLeaf <==> cap in caps by { assert Look(at)[cap].isLeaf == node.isLeaf; }
      ok := !node.isLeaf;
      if ok {
        MarkLeaf(cap, key, mod, node);
      }
      AllOnPath(old(caps), caps, before, cap);
    }

    /** One step of the walk: the child of the node at p for b, made if it is missing. */
    method Step(ghost p: seq<Byte>, b: Byte, node: Node) returns (next: Node)
      requires Formed() && p in at && node == at[p]
      modifies this`at, node`children
      ensures Formed()
      ensures p + [b] in at && next == at[p + [b]]
      ensures at == old(at) || (fresh(next) && at == old(at)[p + [b] := next])
    {
      var child := node.Child(b);
      PathOrNot(p, b, child);
      if child != null {
        return child;
      }
      next := new Node(b, p + [b]);
      AddChild(p, node, next);
    }

    method AddChild(ghost p: seq<Byte>, node: Node, n: Node)
      requires Formed() && p in at && node == at[p] && n.path == p + [n.c] && n.path !in at
      requires n.children == [] && !n.isLeaf && n.key == 0 && n.mod == 0
      modifies this`at, node`children
      ensures Formed() && at == old(at)[n.path := n]
    {
      Grown(root, at, Look(at), p, n);
      GrownLabels(Look(at), caps, p, n);
      Append(at, p, node, n);
      at := at[n.path := n];
    }

    method MarkLeaf(ghost cap: seq<Byte>, key: nat, mod: bv8, node: Node)
      requires Formed() && cap in at && node == at[cap] && cap != []
      modifies this`caps, node`isLeaf, node`key, node`mod
      ensures Formed() && caps == old(caps)[cap := Cap(key, mod)]
    {
      Marked(root, at, Look(at), cap, Cap(key, mod));
      MarkedLabels(Look(at), caps, cap, Cap(key, mod));
      SetLeaf(at, cap, node, key, mod);
      caps := caps[cap := Cap(key, mod)];
    }

    lemma {:induction false} AllOnPath(cs: Caps, cs': Caps, before: set<seq<Byte>>, cap: seq<Byte>)
      requires AllReached(before, cs) && cap in cs' && forall c :: c in cs ==> c in cs'
      requires forall p :: p in at ==> p in before || p <= cap
      ensures AllReached(at.Keys, cs')
    {
      forall p | p in at && p != []
        ensures OnPath(cs', p)
      {
        if p in before {
          assert OnPath(cs, p);
          var c :| c in cs && p <= c;
          assert c in cs';
        }
      }
    }

    /** extract_esc_cap's use of the trie. */
    method Extract(buf: seq<Byte>) returns (m: Match)
      requires Valid()
      ensures m == MatchCap(caps, buf)
    {
      var node, depth := Find(buf);
      if node.isLeaf {
        return Found(Cap(node.key, node.mod), depth);
      }
      BranchesOn(buf[..depth]);
      if |node.children| > 0 && |buf| <= depth {
        return NeedMore;
      }
      return NoMatch;
    }
  }
}
