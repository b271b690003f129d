/**
 Path strings and their components.

 inotify_dtree.c works on path strings: it extends them with "/name", asks whether one
 path lies under another with strncmp and one character test, and replaces prefixes.
 The lemmas say what these do to the sequence of components, for every string.
 */
module PathNames {
  type Path = seq<string>

  /** One more character in front of the first component. */
  function Extend(c: char, p: Path): (r: Path)
    requires |p| >= 1
    ensures |r| == |p|
  {
    [[c] + p[0]] + p[1..]
  }

  function Split(s: string): (r: Path)
    ensures |r| >= 1
  {
    if s == "" then [""]
    else
      var rest := Split(s[1..]);
      if s[0] == '/' then [""] + rest else Extend(s[0], rest)
  }

  function Join(p: Path): string
    requires |p| >= 1
  {
    if |p| == 1 then p[0] else p[0] + "/" + Join(p[1..])
  }

  predicate NoSlash(s: string) {
    '/' !in s
  }

  ghost predicate ValidPath(p: Path) {
    |p| >= 1 && forall i :: 0 <= i < |p| ==> NoSlash(p[i])
  }

  /** strncmp(full, path, len) == 0 and path[len] is '/' or the terminator. */
  predicate IsUnder(full: string, path: string) {
    full <= path && (|path| == |full| || path[|full|] == '/')
  }

  function Child(path: string, name: string): string {
    path + "/" + name
  }

  lemma {:induction false} JoinSplit(s: string)
    ensures ValidPath(Split(s)) && Join(Split(s)) == s
  {
    if s != "" {
      JoinSplit(s[1..]);
      var rest := Split(s[1..]);
      assert s == [s[0]] + s[1..];
      var r := Split(s);
      if s[0] == '/' {
        assert r[1..] == rest;
      } else if |rest| > 1 {
        assert r[1..] == rest[1..];
        assert Join(r) == ([s[0]] + rest[0]) + "/" + Join(rest[1..]);
        assert Join(r) == [s[0]] + (rest[0] + "/" + Join(rest[1..]));
      }
    }
  }

  /** Splitting a string with a slash in front of t after a slash-free name. */
  lemma {:induction false} SplitName(name: string, t: string)
    requires NoSlash(name)
    ensures Split(name) == [name]
    ensures Split(name + "/" + t) == [name] + Split(t)
  {
    if name == "" {
      assert name + "/" + t == "/" + t && ("/" + t)[1..] == t;
    } else {
      SplitName(name[1..], t);
      assert (name + "/" + t)[1..] == name[1..] + "/" + t;
      assert name == [name[0]] + name[1..];
      assert ([name[1..]] + Split(t))[1..] == Split(t);
    }
  }

  lemma {:induction false} SplitJoin(p: Path)
    requires ValidPath(p)
    ensures Split(Join(p)) == p
  {
    if |p| == 1 {
      SplitName(p[0], "");
    } else {
      SplitJoin(p[1..]);
      SplitName(p[0], Join(p[1..]));
      assert p == [p[0]] + p[1..];
    }
  }

  lemma {:induction false} SplitHead(s: string)
    ensures s == "" ==> Split(s) == [""]
    ensures s != "" && s[0] == '/' ==> Split(s)[0] == "" && |Split(s)| >= 2
    ensures s != "" && s[0] != '/' ==> Split(s)[0] != "" && Split(s)[0][0] == s[0]
  {
  }

  /** The byte test is the component test, for all strings. */
  lemma {:induction false} UnderIsPrefix(x: string, y: string)
    ensures IsUnder(x, y) <==> Split(x) <= Split(y)
  {
    SplitHead(x);
    SplitHead(y);
    if x == "" {
      assert Split(x) <= Split(y) <==> Split(y)[0] == "";
    } else if y == "" {
    } else {
      var xs, ys := Split(x[1..]), Split(y[1..]);
      UnderIsPrefix(x[1..], y[1..]);
      assert x == [x[0]] + x[1..] && y == [y[0]] + y[1..];
      if x[0] == y[0] {
        assert IsUnder(x, y) <==> IsUnder(x[1..], y[1..]);
        if x[0] == '/' {
          assert [""] + xs <= [""] + ys <==> xs <= ys by {
            assert ([""] + xs)[1..] == xs && ([""] + ys)[1..] == ys;
          }
        } else {
          HeadPrefix(xs, ys, x[0]);
        }
      } else {
        assert Split(x)[0] != Split(y)[0];
      }
    }
  }

  lemma {:induction false} HeadPrefix(a: Path, b: Path, c: char)
    requires |a| >= 1 && |b| >= 1
    ensures Extend(c, a) <= Extend(c, b) <==> a <= b
  {
    var a', b' := Extend(c, a), Extend(c, b);
    assert ([c] + a[0])[1..] == a[0] && ([c] + b[0])[1..] == b[0];
    assert forall i :: 1 <= i < |a| ==> a'[i] == a[i];
    assert forall i :: 1 <= i < |b| ==> b'[i] == b[i];
    assert a'[0] == b'[0] <==> a[0] == b[0];
    if a <= b {
      assert a' == b'[..|a'|];
    }
    if a' <= b' {
      assert forall i :: 0 <= i < |a| ==> a'[i] == b'[i];
      assert a == b[..|a|];
    }
  }

  lemma {:induction false} SplitConcat(x: string, t: string)
    ensures Split(x + "/" + t) == Split(x) + Split(t)
  {
    if x == "" {
      assert x + "/" + t == "/" + t && ("/" + t)[1..] == t;
    } else {
      SplitConcat(x[1..], t);
      var z := x + "/" + t;
      assert z[1..] == x[1..] + "/" + t && z[0] == x[0];
      var a, b := Split(x[1..]), Split(t);
      if x[0] == '/' {
        assert [""] + (a + b) == ([""] + a) + b;
      } else {
        ExtendConcat(x[0], a, b);
      }
    }
  }

  lemma {:induction false} ExtendConcat(c: char, a: Path, b: Path)
    requires |a| >= 1
    ensures Extend(c, a + b) == Extend(c, a) + b
  {
    assert (a + b)[1..] == a[1..] + b;
  }

  /** Appending "/name" appends a component. */
  lemma {:induction false} SplitChild(x: string, name: string)
    requires NoSlash(name)
    ensures Split(Child(x, name)) == Split(x) + [name]
  {
    SplitConcat(x, name);
    SplitName(name, "");
  }

  /** Replacing the bytes of a prefix replaces its components. */
  lemma {:induction false} SplitRewrite(old_: string, new_: string, y: string)
    requires IsUnder(old_, y)
    ensures Split(old_) <= Split(y)
    ensures Split(new_ + y[|old_|..]) == Split(new_) + Split(y)[|Split(old_)|..]
  {
    UnderIsPrefix(old_, y);
    if |y| == |old_| {
      assert y == old_ && new_ + y[|old_|..] == new_;
    } else {
      var t := y[|old_| + 1..];
      assert y == old_ + "/" + t;
      assert new_ + y[|old_|..] == new_ + "/" + t;
      SplitConcat(old_, t);
      SplitConcat(new_, t);
    }
  }

  lemma {:induction false} SplitInjective(x: string, y: string)
    requires Split(x) == Split(y)
    ensures x == y
  {
    JoinSplit(x);
    JoinSplit(y);
  }
}
