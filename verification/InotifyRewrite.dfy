/** rewriteCachedPaths on its own: undone by the reverse rename exactly when nothing outside the
    old subtree was cached under the new prefix, and then also injective. */
module InotifyRewrite {
  import opened PathNames
  import opened InotifySpec

  ghost predicate FreeTarget(slots: seq<Watch>, full: string, to: string) {
    forall j :: 0 <= j < |slots| && IsUnder(to, slots[j].path) ==> IsUnder(full, slots[j].path)
  }

  lemma {:induction false} RewriteSlotBack(w: Watch, full: string, to: string)
    ensures RewriteSlot(RewriteSlot(w, full, to), to, full) == w <==>
            (IsUnder(to, w.path) ==> IsUnder(full, w.path))
  {
    if IsUnder(full, w.path) {
      var rest := w.path[|full|..];
      var x := to + rest;
      assert w.path == full + rest;
      assert x[|to|..] == rest;
      assert IsUnder(to, x);
    } else if IsUnder(to, w.path) {
      var rest := w.path[|to|..];
      assert w.path == to + rest;
      assert IsUnder(full, full + rest) by {
        assert (full + rest)[..|full|] == full;
      }
    }
  }

  lemma {:induction false} ReverseRenameUndoes(slots: seq<Watch>, full: string, to: string)
    ensures RewritePaths(RewritePaths(slots, full, to), to, full) == slots <==> FreeTarget(slots, full, to)
  {
    var r := RewritePaths(RewritePaths(slots, full, to), to, full);
    forall j | 0 <= j < |slots|
      ensures r[j] == slots[j] <==> (IsUnder(to, slots[j].path) ==> IsUnder(full, slots[j].path))
    {
      RewriteSlotBack(slots[j], full, to);
    }
  }

  lemma {:induction false} RewriteInjective(slots: seq<Watch>, full: string, to: string, i: nat, j: nat)
    requires FreeTarget(slots, full, to) && i < |slots| && j < |slots|
    requires RewritePaths(slots, full, to)[i].path == RewritePaths(slots, full, to)[j].path
    ensures slots[i].path == slots[j].path
  {
    RewriteSlotBack(slots[i], full, to);
    RewriteSlotBack(slots[j], full, to);
  }
}
