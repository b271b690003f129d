/** ns_capable: the walk up the user namespace hierarchy, and the descriptors it opens. */
module NsCapable {
  import opened Wrappers

  datatype Ns = Ns(dev: nat, ino: nat)

  /** What the kernel answers about user namespaces: NS_GET_PARENT (None is EPERM) and
      NS_GET_OWNER_UID. A namespace is nested more deeply than its parent. */
  datatype Kernel = Kernel(parent: Ns -> Option<Ns>, owner: Ns -> nat, depth: Ns -> nat)

  ghost predicate WellFounded(k: Kernel) {
    forall n {:trigger k.parent(n)} :: k.parent(n).Some? ==> k.depth(k.parent(n).value) < k.depth(n)
  }

  predicate ProperAncestor(k: Kernel, a: Ns, n: Ns)
    requires WellFounded(k)
    decreases k.depth(n)
  {
    k.parent(n).Some? && (k.parent(n).value == a || ProperAncestor(k, a, k.parent(n).value))
  }

  /** n itself, or a proper ancestor of it. */
  predicate OnChain(k: Kernel, a: Ns, n: Ns)
    requires WellFounded(k)
  {
    a == n || ProperAncestor(k, a, n)
  }

  /** Each namespace on the path is the parent of the one before it. */
  ghost predicate ParentPath(k: Kernel, path: seq<Ns>) {
    forall i :: 0 < i < |path| ==> k.parent(path[i - 1]) == Some(path[i])
  }

  lemma {:induction false} PathLeads(k: Kernel, path: seq<Ns>)
    requires WellFounded(k) && |path| >= 2 && ParentPath(k, path)
    ensures ProperAncestor(k, path[|path| - 1], path[0])
    decreases |path|
  {
    assert k.parent(path[0]) == Some(path[1]);
    if |path| > 2 {
      var rest := path[1..];
      assert forall i :: 0 <= i < |rest| ==> rest[i] == path[i + 1];
      PathLeads(k, rest);
    }
  }

  lemma {:induction false} PathTo(k: Kernel, a: Ns, n: Ns) returns (path: seq<Ns>)
    requires WellFounded(k) && ProperAncestor(k, a, n)
    ensures |path| >= 2 && path[0] == n && path[|path| - 1] == a && ParentPath(k, path)
    decreases k.depth(n)
  {
    if k.parent(n).value == a {
      path := [n, a];
    } else {
      var rest := PathTo(k, a, k.parent(n).value);
      path := [n] + rest;
      assert forall i :: 1 <= i < |path| ==> path[i] == rest[i - 1];
    }
  }

  /** A proper ancestor is what some number of steps to the parent lead to, one at least. */
  lemma {:induction false} AncestorByPath(k: Kernel, a: Ns, n: Ns)
    requires WellFounded(k)
    ensures ProperAncestor(k, a, n) <==>
            exists path :: |path| >= 2 && path[0] == n && path[|path| - 1] == a && ParentPath(k, path)
  {
    if ProperAncestor(k, a, n) {
      var path := PathTo(k, a, n);
    }
    if path :| |path| >= 2 && path[0] == n && path[|path| - 1] == a && ParentPath(k, path) {
      PathLeads(k, path);
    }
  }

  lemma {:induction false} AncestorDepth(k: Kernel, a: Ns, n: Ns)
    requires WellFounded(k) && ProperAncestor(k, a, n)
    ensures k.depth(a) < k.depth(n)
    decreases k.depth(n)
  {
    if k.parent(n) != Some(a) {
      AncestorDepth(k, a, k.parent(n).value);
    }
  }

  lemma {:induction false} AncestorParent(k: Kernel, c: Ns, n: Ns)
    requires WellFounded(k) && OnChain(k, c, n) && k.parent(c).Some?
    ensures ProperAncestor(k, k.parent(c).value, n)
    decreases k.depth(n)
  {
    if c != n {
      AncestorParent(k, c, k.parent(n).value);
    }
  }

  /** There is only one child of a namespace on a chain. */
  lemma {:induction false} OneChild(k: Kernel, s: Ns, b: Ns, c: Ns, n: Ns)
    requires WellFounded(k) && k.parent(b) == Some(s) && k.parent(c) == Some(s)
    requires OnChain(k, b, n) && OnChain(k, c, n)
    ensures b == c
    decreases k.depth(n)
  {
    if b != n && c != n {
      OneChild(k, s, b, c, k.parent(n).value);
    } else if b != c {
      Deeper(k, s, if b == n then c else b, n);
    }
  }

  lemma {:induction false} Deeper(k: Kernel, s: Ns, c: Ns, n: Ns)
    requires WellFounded(k) && k.parent(c) == Some(s) && c != n && OnChain(k, c, n)
    ensures k.parent(n) != Some(s)
  {
    if k.parent(n) == Some(s) {
      if c == s {
        AncestorDepth(k, s, c);
      } else {
        AncestorDepth(k, c, s);
      }
    }
  }

  /** c is the child of s on the way to n. */
  ghost predicate ChildTowards(k: Kernel, s: Ns, c: Ns, n: Ns) {
    WellFounded(k) && k.parent(c) == Some(s) && OnChain(k, c, n)
  }

  lemma {:induction false} ChildOfAncestor(k: Kernel, s: Ns, c: Ns, n: Ns)
    requires ChildTowards(k, s, c, n)
    ensures ProperAncestor(k, s, n)
  {
    AncestorParent(k, c, n);
  }

  // The command-line argument: a PID, or the name of a namespace file (of a user namespace, or
  // of another one with its owner).
  datatype Arg = PidArg(userns: Ns) | UserFile(userns: Ns) | OtherFile(ns: Ns, userns: Ns)

  // What is printed. OwnSets: the capabilities in the sets of the process.
  datatype Verdict = Nothing | OwnSets | Everything

  /** The rule of user_namespaces(7) that the program applies. */
  ghost predicate Correct(k: Kernel, s: Ns, t: Ns, euid: nat, v: Verdict)
    requires WellFounded(k)
  {
    && (v.Nothing? <==> !OnChain(k, s, t))
    && (v.Everything? <==> exists c :: ChildTowards(k, s, c, t) && k.owner(c) == euid)
  }

  function Below(n: nat): (s: set<nat>)
    ensures forall i: nat :: i in s <==> i < n
  {
    if n == 0 then {} else Below(n - 1) + {n - 1}
  }

  lemma {:induction false} NoChildOfSelf(k: Kernel, n: Ns, c: Ns)
    requires WellFounded(k)
    ensures !ChildTowards(k, n, c, n)
  {
    if ChildTowards(k, n, c, n) {
      ChildOfAncestor(k, n, c, n);
      AncestorDepth(k, n, n);
    }
  }

  /** The verdict that the program reaches is the correct one. */
  lemma {:induction false} VerdictFromChild(k: Kernel, s: Ns, t: Ns, euid: nat, c: Ns)
    requires ChildTowards(k, s, c, t)
    ensures Correct(k, s, t, euid, if k.owner(c) == euid then Everything else OwnSets)
  {
    ChildOfAncestor(k, s, c, t);
    forall d | ChildTowards(k, s, d, t)
      ensures d == c
    {
      OneChild(k, s, d, c, t);
    }
  }

  lemma {:induction false} VerdictWithoutChild(k: Kernel, s: Ns, t: Ns, euid: nat)
    requires WellFounded(k) && (s == t || !ProperAncestor(k, s, t))
    ensures Correct(k, s, t, euid, if s == t then OwnSets else Nothing)
  {
    forall c
      ensures !ChildTowards(k, s, c, t)
    {
      if s == t {
        NoChildOfSelf(k, s, c);
      } else if ChildTowards(k, s, c, t) {
        ChildOfAncestor(k, s, c, t);
      }
    }
  }

  class Process {
    var fds: map<nat, Ns>  // the open descriptors

    constructor ()
      ensures fds == map[]
    {
      fds := map[];
    }

    /** The kernel gives the lowest free descriptor. */
    method Open(ns: Ns) returns (fd: nat)
      modifies this
      ensures fd !in old(fds) && fds == old(fds)[fd := ns]
      ensures forall i: nat :: i < fd ==> i in old(fds)
    {
      fd := 0;
      while fd in fds
        invariant forall i: nat :: i < fd ==> i in fds
        decreases fds.Keys - Below(fd)
      {
        fd := fd + 1;
      }
      fds := fds[fd := ns];
    }

    method Close(fd: nat)
      requires fd in fds  // else EBADF, and errExit
      modifies this
      ensures fds == old(fds) - {fd}
    {
      fds := fds - {fd};
    }

    method GetParent(k: Kernel, fd: nat) returns (r: int)
      requires fd in fds
      modifies this
      ensures k.parent(old(fds)[fd]).None? ==> r == -1 && fds == old(fds)
      ensures k.parent(old(fds)[fd]).Some? ==>
              r >= 0 && r !in old(fds) && fds == old(fds)[r := k.parent(old(fds)[fd]).value]
    {
      var parent := k.parent(fds[fd]);
      if parent.None? {
        return -1;
      }
      r := Open(parent.value);
    }

    method NsEqual(fd1: nat, fd2: nat) returns (b: bool)
      requires fd1 in fds && fd2 in fds
      ensures b == (fds[fd1] == fds[fd2])
    {
      b := fds[fd1].dev == fds[fd2].dev && fds[fd1].ino == fds[fd2].ino;
    }

    /** -1 exactly if source is no proper ancestor of target, and then no descriptor is left over;
        else a descriptor for the child of source on the way to target, which is target itself or
        the only one left over. */
    method IsAncestorUserns(k: Kernel, source: nat, target: nat) returns (r: int)
      requires WellFounded(k) && source in fds && target in fds
      modifies this
      ensures r == -1 <==> !ProperAncestor(k, old(fds)[source], old(fds)[target])
      ensures r == -1 ==> fds == old(fds)
      ensures r != -1 ==> r >= 0 && r in fds && ChildTowards(k, old(fds)[source], fds[r], old(fds)[target])
      ensures r != -1 ==> if r == target then fds == old(fds) else r !in old(fds) && fds == old(fds)[r := fds[r]]
    {
      var child := target;
      ghost var s, t := fds[source], fds[target];
      while true
        invariant child in fds && OnChain(k, fds[child], t)
        invariant if child == target then fds == old(fds)
                  else child !in old(fds) && fds == old(fds)[child := fds[child]]
        invariant ProperAncestor(k, s, t) <==> ProperAncestor(k, s, fds[child])
        decreases k.depth(fds[child])
      {
        ghost var n := fds[child];
        var parent := GetParent(k, child);
        if parent == -1 {
          if child != target {
            Close(child);
          }
          return -1;
        }
        if k.parent(n).Some? {
          ParentOnChain(k, n, t);
        }
        var found := NsEqual(parent, source);
        if found {
          Close(parent);
          return child;
        }
        if child != target {
          Close(child);
        }
        child := parent;
      }
    }

    /** get_userns_from */
    method GetUserns(arg: Arg) returns (fd: nat)
      modifies this
      ensures fd !in old(fds) && fds == old(fds)[fd := arg.userns]
    {
      match arg
      case PidArg(userns) =>
        fd := Open(userns);
      case UserFile(userns) =>
        fd := Open(userns);
      case OtherFile(ns, userns) =>
        var file := Open(ns);
        fd := Open(userns);  // NS_GET_USERNS
        Close(file);
    }

    /** main: the right verdict, and every descriptor that was opened is closed, each once. */
    method Run(k: Kernel, source: Ns, euid: nat, arg: Arg) returns (v: Verdict)
      requires WellFounded(k)
      modifies this
      ensures fds == old(fds) && Correct(k, source, arg.userns, euid, v)
    {
      var sourceFd := Open(source);
      var targetFd := GetUserns(arg);
      var same := NsEqual(sourceFd, targetFd);
      if same {
        VerdictWithoutChild(k, source, arg.userns, euid);
        v := OwnSets;
      } else {
        var child := IsAncestorUserns(k, sourceFd, targetFd);
        if child == -1 {
          VerdictWithoutChild(k, source, arg.userns, euid);
          v := Nothing;
        } else {
          VerdictFromChild(k, source, arg.userns, euid, fds[child]);
          v := if euid == k.owner(fds[child]) then Everything else OwnSets;
          if child != targetFd {
            Close(child);
          }
        }
      }
      Close(targetFd);
      Close(sourceFd);
    }
  }

  lemma {:induction false} ParentOnChain(k: Kernel, n: Ns, t: Ns)
    requires WellFounded(k) && OnChain(k, n, t) && k.parent(n).Some?
    ensures OnChain(k, k.parent(n).value, t)
  {
    AncestorParent(k, n, t);
  }
}
