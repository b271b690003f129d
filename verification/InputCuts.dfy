/**
 Where the input may be cut into reads when it holds escape sequences: in ESC mode anywhere
 but right after an escape character, exactly if no capability begins another one. In ALT
 mode a cut can also lose the modifier; InputReads says exactly which cuts do.
 */
module InputCuts {
  import opened Utf8
  import opened CapTrie
  import opened InputSpec
  import M = Mouse

  // ----- what does not depend on the bytes that follow

  lemma {:induction false} NumsLocal(buf: seq<Byte>, rest: seq<Byte>, i: nat, nums: seq<int>, cur: int, trail: Byte)
    requires i <= |buf| && |nums| <= 3
    requires var r := M.ParseNums(buf, i, nums, cur, trail); r.Failed? || |r.nums| == 3
    ensures M.ParseNums(buf + rest, i, nums, cur, trail) == M.ParseNums(buf, i, nums, cur, trail)
    decreases |buf| - i
  {
    if i < |buf| && |nums| < 3 {
      var c := buf[i];
      if M.IsDigit(c) {
        NumsLocal(buf, rest, i + 1, nums, (if cur == -1 then 0 else cur) * 10 + (c - M.ZERO), trail);
      } else if M.ParseNums(buf, i, nums, cur, trail).Parsed? || M.ParseNums(buf + rest, i, nums, cur, trail).Parsed? {
        NumsLocal(buf, rest, i + 1, nums + [cur], -1, c);
      }
    }
  }

  lemma {:induction false} MouseLocal(a: seq<Byte>, b: seq<Byte>)
    requires M.ParseMouse(a) != M.NeedMore
    ensures M.ParseMouse(a + b) == M.ParseMouse(a)
  {
    assert forall i :: 0 <= i < |a| ==> (a + b)[i] == a[i];
    if |a| >= 3 && a[1] == M.BRACKET && a[2] != M.UPPER_M {
      NumsLocal(a, b, if a[2] == M.LESS then 3 else 2, [], -1, 0x20);
    }
  }

  lemma {:induction false} ShorterToo(caps: Caps, buf: seq<Byte>, d: nat, e: nat)
    requires d <= |buf| && e <= |buf|
    ensures d <= e && OnPath(caps, buf[..e]) ==> OnPath(caps, buf[..d])
  {
    if d <= e && OnPath(caps, buf[..e]) {
      PrefixOnPath(caps, buf, d, e);
    }
  }

  lemma {:induction false} DepthLocal(caps: Caps, a: seq<Byte>, b: seq<Byte>)
    requires Depth(caps, a) < |a|
    ensures Depth(caps, a + b) == Depth(caps, a)
  {
    var all, d, e := a + b, Depth(caps, a), Depth(caps, a + b);
    DepthIsLongest(caps, a);
    DepthIsLongest(caps, all);
    assert all[..d] == a[..d] && all[..d + 1] == a[..d + 1];
    ShorterToo(caps, all, d + 1, e);
  }

  /** a is not a capability that begins a longer one. */
  ghost predicate Complete(caps: Caps, a: seq<Byte>) {
    a in caps ==> forall c :: c in caps ==> !(a < c)
  }

  lemma {:induction false} NothingLonger(caps: Caps, a: seq<Byte>, p: seq<Byte>)
    requires a in caps && Complete(caps, a) && a < p
    ensures !OnPath(caps, p)
  {
    assert forall c :: c in caps && p <= c ==> a < c;
  }

  lemma {:induction false} CapLocal(caps: Caps, a: seq<Byte>, b: seq<Byte>)
    requires a != [] && Complete(caps, a) && MatchCap(caps, a) != NeedMore
    ensures MatchCap(caps, a + b) == MatchCap(caps, a)
  {
    var all, d := a + b, Depth(caps, a);
    if d < |a| {
      DepthLocal(caps, a, b);
      assert all[..d] == a[..d];
    } else {
      assert a[..d] == a && all[..d] == a;
      forall m | d < m <= |all|
        ensures !OnPath(caps, all[..m])
      {
        assert all[..m][..d] == a;
        NothingLonger(caps, a, all[..m]);
      }
      FoundExactly(caps, all, d);
    }
  }

  lemma {:induction false} CapStepLocal(caps: Caps, a: seq<Byte>, b: seq<Byte>, ev: Event)
    requires a != [] && Complete(caps, a) && ExtractCap(caps, a, ev).rv != More
    ensures var r := ExtractCap(caps, a, ev); ExtractCap(caps, a + b, ev) == Step(r.rv, r.ev, r.rest + b)
  {
    CapLocal(caps, a, b);
    if MatchCap(caps, a).Found? {
      DropConcat(a, b, MatchCap(caps, a).length);
    }
  }

  lemma {:induction false} MouseStepLocal(a: seq<Byte>, b: seq<Byte>, ev: Event)
    requires ExtractMouse(a, ev).rv != More
    ensures var r := ExtractMouse(a, ev); ExtractMouse(a + b, ev) == Step(r.rv, r.ev, r.rest + b)
  {
    MouseLocal(a, b);
    if M.ParseMouse(a).Report? {
      DropConcat(a, b, M.ParseMouse(a).length);
    }
  }

  lemma {:induction false} DropConcat(a: seq<Byte>, b: seq<Byte>, n: nat)
    requires n <= |a|
    ensures (a + b)[n..] == a[n..] + b
  {
  }

  lemma {:induction false} EscLocal(caps: Caps, a: seq<Byte>, b: seq<Byte>, ev: Event)
    requires a != [] && Complete(caps, a) && ExtractEsc(caps, a, ev).rv != More
    ensures var r := ExtractEsc(caps, a, ev); ExtractEsc(caps, a + b, ev) == Step(r.rv, r.ev, r.rest + b)
  {
    CapStepLocal(caps, a, b, ev);
    if ExtractCap(caps, a, ev).rv == Error {
      MouseStepLocal(a, b, ev);
    }
  }

  /** Whether an escape sequence is found does not depend on the event that is filled in. */
  lemma {:induction false} SameEsc(caps: Caps, a: seq<Byte>, ev: Event)
    ensures ExtractEsc(caps, a, ev).rv == ExtractEsc(caps, a, BLANK).rv
    ensures ExtractEsc(caps, a, ev).rest == ExtractEsc(caps, a, BLANK).rest
    ensures ExtractEsc(caps, a, ev).rv != Ready ==>
            ExtractEsc(caps, a, ev) == Step(ExtractEsc(caps, a, BLANK).rv, ev, a)
  {
  }

  function Alt(ev: Event): Event {
    ev.(mod := ev.mod | MOD_ALT)
  }

  lemma {:induction false} AfterAlt(caps: Caps, a: seq<Byte>, ev: Event)
    requires a != [] && a[0] == ESC && ExtractEsc(caps, a, ev).rv == Error
    ensures Extract(caps, false, a, ev) == Extract(caps, false, a[1..], Alt(ev))
  {
  }

  lemma {:induction false} SameStatus(caps: Caps, a: seq<Byte>, ev: Event, ev': Event)
    ensures var r, r' := Extract(caps, false, a, ev), Extract(caps, false, a, ev'); r.rv == r'.rv && r.rest == r'.rest
    decreases |a|
  {
    SameEsc(caps, a, ev);
    SameEsc(caps, a, ev');
    if a != [] && a[0] == ESC && ExtractEsc(caps, a, ev).rv == Error {
      AfterAlt(caps, a, ev);
      AfterAlt(caps, a, ev');
      SameStatus(caps, a[1..], Alt(ev), Alt(ev'));
    }
  }

  // ----- where a stream may be cut

  /** The next event of a is the same whatever follows; or there is none yet, and nothing is lost. */
  ghost predicate Steady(caps: Caps, escMode: bool, a: seq<Byte>)
    decreases |a|
  {
    a == [] || a[0] != ESC ||
    (!(escMode && |a| == 1) && Complete(caps, a) &&
     (ExtractEsc(caps, a, BLANK).rv == Error && !escMode ==>
        Extract(caps, escMode, a[1..], BLANK).rv == Ready && Steady(caps, escMode, a[1..])))
  }

  /** What Steady promises of a step. */
  ghost predicate Local(caps: Caps, escMode: bool, a: seq<Byte>, b: seq<Byte>, ev: Event) {
    var r := Extract(caps, escMode, a, ev);
    if r.rv == Ready then Extract(caps, escMode, a + b, ev) == Step(Ready, r.ev, r.rest + b) else r.rest == a
  }

  lemma {:induction false} CharLocal(caps: Caps, escMode: bool, a: seq<Byte>, b: seq<Byte>, ev: Event)
    requires a != [] ==> a[0] != ESC
    ensures Local(caps, escMode, a, b, ev)
  {
    if a == [] {
      return;
    }
    assert (a + b)[0] == a[0];
    if IsControl(a[0]) {
      assert (a + b)[1..] == a[1..] + b;
    } else if |a| >= CharLength(a[0]) {
      var n := CharLength(a[0]);
      DecodeLocal(a, b);
      assert (a + b)[n..] == a[n..] + b;
    }
  }

  lemma {:induction false} FoundLocal(caps: Caps, escMode: bool, a: seq<Byte>, b: seq<Byte>, ev: Event)
    requires a != [] && a[0] == ESC && !(escMode && |a| == 1)
    requires var r := ExtractEsc(caps, a, ev);
             r.rv != Error && (r.rv == Ready ==> ExtractEsc(caps, a + b, ev) == Step(r.rv, r.ev, r.rest + b))
    ensures Local(caps, escMode, a, b, ev)
  {
    SameEsc(caps, a, ev);
  }

  lemma {:induction false} KeyLocal(caps: Caps, a: seq<Byte>, b: seq<Byte>, ev: Event)
    requires a != [] && a[0] == ESC && |a| > 1
    requires ExtractEsc(caps, a, ev).rv == Error && ExtractEsc(caps, a + b, ev).rv == Error
    ensures Local(caps, true, a, b, ev)
  {
    assert (a + b)[1..] == a[1..] + b;
  }

  lemma {:induction false} AltFollows(caps: Caps, a: seq<Byte>, b: seq<Byte>, ev: Event)
    requires a != [] && a[0] == ESC && ExtractEsc(caps, a + b, ev).rv == Error
    ensures Extract(caps, false, a + b, ev) == Extract(caps, false, a[1..] + b, Alt(ev))
  {
    assert (a + b)[0] == ESC && (a + b)[1..] == a[1..] + b;
    AfterAlt(caps, a + b, ev);
  }

  lemma {:induction false} SteadyLocal(caps: Caps, escMode: bool, a: seq<Byte>, b: seq<Byte>, ev: Event)
    requires Steady(caps, escMode, a)
    ensures Local(caps, escMode, a, b, ev)
    decreases |a|
  {
    if a != [] && a[0] == ESC {
      SteadyEsc(caps, escMode, a, b, ev);
    } else {
      CharLocal(caps, escMode, a, b, ev);
    }
  }

  lemma {:induction false} SteadyEsc(caps: Caps, escMode: bool, a: seq<Byte>, b: seq<Byte>, ev: Event)
    requires Steady(caps, escMode, a) && a != [] && a[0] == ESC
    ensures Local(caps, escMode, a, b, ev)
    decreases |a|, 0
  {
    SameEsc(caps, a, ev);
    if ExtractEsc(caps, a, ev).rv != More {
      EscLocal(caps, a, b, ev);
    }
    if ExtractEsc(caps, a, ev).rv != Error {
      FoundLocal(caps, escMode, a, b, ev);
    } else if escMode {
      KeyLocal(caps, a, b, ev);
    } else {
      SameStatus(caps, a[1..], BLANK, Alt(ev));
      SteadyLocal(caps, false, a[1..], b, Alt(ev));
      AfterAlt(caps, a, ev);
      AltFollows(caps, a, b, ev);
    }
  }

  // ----- whole streams

  /** Taking events from a until there are none meets only steps that do not depend on what follows. */
  ghost predicate Settles(caps: Caps, escMode: bool, a: seq<Byte>)
    requires [] !in caps
    decreases |a|
  {
    var r := Extract(caps, escMode, a, BLANK);
    Steady(caps, escMode, a) && (r.rv == Ready ==> Settles(caps, escMode, r.rest))
  }

  lemma {:induction false} DrainCut(caps: Caps, escMode: bool, a: seq<Byte>, b: seq<Byte>)
    requires [] !in caps && Settles(caps, escMode, a)
    ensures var d := Drain(caps, escMode, a);
            var e := Drain(caps, escMode, d.rest + b);
            Drain(caps, escMode, a + b) == Drained(d.events + e.events, e.rest)
    decreases |a|
  {
    var r := Extract(caps, escMode, a, BLANK);
    SteadyLocal(caps, escMode, a, b, BLANK);
    if r.rv == Ready {
      DrainCut(caps, escMode, r.rest, b);
      DrainStep(caps, escMode, a, r.ev, r.rest);
      DrainStep(caps, escMode, a + b, r.ev, r.rest + b);
      var d := Drain(caps, escMode, r.rest);
      Prepend(r.ev, d.events, Drain(caps, escMode, d.rest + b).events);
    } else {
      assert [] + Drain(caps, escMode, a + b).events == Drain(caps, escMode, a + b).events;
    }
  }

  lemma {:induction false} Prepend(e: Event, s: seq<Event>, t: seq<Event>)
    ensures [e] + (s + t) == ([e] + s) + t
  {
  }

  lemma {:induction false} StuckEsc(caps: Caps, a: seq<Byte>, ev: Event)
    ensures var r := Extract(caps, true, a, ev); r.rv != Ready ==> r.rest == a
  {
    if a != [] && a[0] == ESC {
      EscOrKey(caps, a, ev);
      SameEsc(caps, a, ev);
    } else {
      CharLocal(caps, true, a, [], ev);
    }
  }

  lemma {:induction false} EscOrKey(caps: Caps, a: seq<Byte>, ev: Event)
    requires a != [] && a[0] == ESC
    ensures var r := Extract(caps, true, a, ev); r.rv == Ready || r == ExtractEsc(caps, a, ev)
  {
  }

  lemma {:induction false} StuckAlt(caps: Caps, a: seq<Byte>, ev: Event)
    ensures var r := Extract(caps, false, a, ev);
            var r' := Extract(caps, false, r.rest, BLANK);
            r.rv != Ready ==> r'.rv != Ready && r'.rest == r.rest
    decreases |a|
  {
    SameEsc(caps, a, ev);
    SameStatus(caps, a, ev, BLANK);
    if a != [] && a[0] == ESC && ExtractEsc(caps, a, ev).rv == Error {
      AfterAlt(caps, a, ev);
      StuckAlt(caps, a[1..], Alt(ev));
    }
  }

  /** Nothing more can be taken right after draining, in either mode. */
  lemma {:induction false} NothingLeft(caps: Caps, escMode: bool, a: seq<Byte>)
    requires [] !in caps
    ensures var d := Drain(caps, escMode, a); Drain(caps, escMode, d.rest) == Drained([], d.rest)
    decreases |a|
  {
    var r := Extract(caps, escMode, a, BLANK);
    if r.rv == Ready {
      NothingLeft(caps, escMode, r.rest);
    } else {
      StuckEsc(caps, a, BLANK);
      StuckAlt(caps, a, BLANK);
    }
  }

  /** Each read but the last with any bytes ends where what is buffered settles. */
  ghost predicate CleanCuts(caps: Caps, escMode: bool, buf: seq<Byte>, chunks: seq<seq<Byte>>)
    requires [] !in caps
    decreases |chunks|
  {
    chunks == [] ||
    ((Flatten(chunks[1..]) == [] || Settles(caps, escMode, buf + chunks[0])) &&
     CleanCuts(caps, escMode, Drain(caps, escMode, buf + chunks[0]).rest, chunks[1..]))
  }

  lemma {:induction false} CleanFeed(caps: Caps, escMode: bool, buf: seq<Byte>, chunks: seq<seq<Byte>>, all: seq<Byte>)
    requires [] !in caps && CleanCuts(caps, escMode, buf, chunks) && Drain(caps, escMode, buf) == Drained([], buf)
    requires all == buf + Flatten(chunks)
    ensures Feed(caps, escMode, buf, chunks) == Drain(caps, escMode, all)
    decreases |chunks|
  {
    if chunks == [] {
      assert all == buf;
    } else {
      var a, tail := buf + chunks[0], chunks[1..];
      var d := Drain(caps, escMode, a);
      NothingLeft(caps, escMode, a);
      CleanFeed(caps, escMode, d.rest, tail, d.rest + Flatten(tail));
      Regroup(buf, chunks[0], Flatten(tail));
      CleanStep(caps, escMode, a, Flatten(tail), all);
    }
  }

  lemma {:induction false} Regroup(a: seq<Byte>, b: seq<Byte>, c: seq<Byte>)
    ensures (a + b) + c == a + (b + c)
  {
  }

  lemma {:induction false} CleanStep(caps: Caps, escMode: bool, a: seq<Byte>, rest: seq<Byte>, all: seq<Byte>)
    requires [] !in caps && (rest == [] || Settles(caps, escMode, a)) && all == a + rest
    ensures var d := Drain(caps, escMode, a);
            var e := Drain(caps, escMode, d.rest + rest);
            Drain(caps, escMode, all) == Drained(d.events + e.events, e.rest)
  {
    if rest == [] {
      NothingLeft(caps, escMode, a);
      var d := Drain(caps, escMode, a);
      assert d.rest + rest == d.rest && all == a && d.events + [] == d.events;
    } else {
      DrainCut(caps, escMode, a, rest);
    }
  }

  /** Any bytes, escapes included, and either mode: cuts at which the buffered bytes settle do not
      change the events, nor what remains. */
  lemma {:induction false} CleanCutsDoNotMatter(caps: Caps, escMode: bool, chunks: seq<seq<Byte>>,
          chunks': seq<seq<Byte>>)
    requires [] !in caps && Flatten(chunks) == Flatten(chunks')
    requires CleanCuts(caps, escMode, [], chunks) && CleanCuts(caps, escMode, [], chunks')
    ensures Feed(caps, escMode, [], chunks) == Feed(caps, escMode, [], chunks')
  {
    var all := Flatten(chunks);
    assert [] + all == all;
    CleanFeed(caps, escMode, [], chunks, all);
    CleanFeed(caps, escMode, [], chunks', all);
  }

  // ----- ESC mode

  ghost predicate EndsInEsc(a: seq<Byte>) {
    a != [] && a[|a| - 1] == ESC
  }

  /** No read ends right after an escape character, except at the end of the stream. */
  ghost predicate GoodCut(chunks: seq<seq<Byte>>) {
    forall i :: 0 <= i < |chunks| && EndsInEsc(chunks[i]) ==> Flatten(chunks[i + 1..]) == []
  }

  /** No escape sequence that a good cut can follow begins another one. */
  ghost predicate Unambiguous(caps: Caps) {
    forall c, c' :: c in caps && c' in caps && c != [] && c[0] == ESC && !EndsInEsc(c) ==> !(c < c')
  }

  lemma {:induction false} RestIsSuffix(caps: Caps, a: seq<Byte>, ev: Event)
    ensures var r := Extract(caps, true, a, ev); |r.rest| <= |a| && r.rest == a[|a| - |r.rest|..]
  {
    if a != [] && a[0] == ESC {
      EscSuffix(caps, a, ev);
    }
  }

  lemma {:induction false} EscSuffix(caps: Caps, a: seq<Byte>, ev: Event)
    ensures var r := ExtractEsc(caps, a, ev); |r.rest| <= |a| && r.rest == a[|a| - |r.rest|..]
  {
    assert a == a[0..];
  }

  lemma {:induction false} EscSettles(caps: Caps, a: seq<Byte>)
    requires [] !in caps && Unambiguous(caps) && !EndsInEsc(a)
    ensures Settles(caps, true, a) && !EndsInEsc(Drain(caps, true, a).rest)
    decreases |a|
  {
    var r := Extract(caps, true, a, BLANK);
    RestIsSuffix(caps, a, BLANK);
    StuckEsc(caps, a, BLANK);
    if r.rv == Ready {
      EscSettles(caps, r.rest);
    }
  }

  lemma {:induction false} GoodCutClean(caps: Caps, buf: seq<Byte>, chunks: seq<seq<Byte>>)
    requires [] !in caps && Unambiguous(caps) && GoodCut(chunks) && (EndsInEsc(buf) ==> Flatten(chunks) == [])
    ensures CleanCuts(caps, true, buf, chunks)
    decreases |chunks|
  {
    if chunks != [] {
      var a, tail := buf + chunks[0], chunks[1..];
      assert Flatten(chunks) == chunks[0] + Flatten(tail);
      if Flatten(tail) != [] {
        assert !EndsInEsc(chunks[0]) && !EndsInEsc(a);
        EscSettles(caps, a);
      }
      assert GoodCut(tail) by {
        forall i | 0 <= i < |tail| && EndsInEsc(tail[i])
          ensures Flatten(tail[i + 1..]) == []
        {
          assert tail[i] == chunks[i + 1] && tail[i + 1..] == chunks[i + 2..];
        }
      }
      GoodCutClean(caps, Drain(caps, true, a).rest, tail);
    }
  }

  lemma {:induction false} WholeCap(caps: Caps, c: seq<Byte>)
    requires [] !in caps && c in caps && |c| > 1 && c[0] == ESC
    ensures Drain(caps, true, c).events != [] && Drain(caps, true, c).rest == [] && |Drain(caps, true, c).events| == 1
  {
    assert c[..|c|] == c && c[|c|..] == [];
    FoundExactly(caps, c, |c|);
    assert Drain(caps, true, []) == Drained([], []);
  }

  lemma {:induction false} SomethingComes(caps: Caps, a: seq<Byte>)
    requires [] !in caps && a != []
    ensures Drain(caps, true, a) != Drained([], [])
  {
    StuckEsc(caps, a, BLANK);
  }

  lemma {:induction false} FeedTwo(caps: Caps, escMode: bool, a: seq<Byte>, b: seq<Byte>)
    requires [] !in caps
    ensures var d := Drain(caps, escMode, a);
            var e := Drain(caps, escMode, d.rest + b);
            Feed(caps, escMode, [], [a, b]) == Drained(d.events + e.events, e.rest)
  {
    var d := Drain(caps, escMode, a);
    var e := Drain(caps, escMode, d.rest + b);
    var last: seq<seq<Byte>> := [b];
    assert [a, b][1..] == last && last[1..] == [] && [] + a == a && e.events + [] == e.events;
    assert Feed(caps, escMode, d.rest, last) == e;
  }

  lemma {:induction false} FlattenTwo(a: seq<Byte>, b: seq<Byte>)
    ensures Flatten([a, b]) == a + b
  {
    var last: seq<seq<Byte>> := [b];
    assert [a, b][1..] == last && last[1..] == [] && Flatten(last) == b + [];
  }

  /** A capability and a longer one that it begins: cut between them, the longer one is lost. */
  lemma {:induction false} CutAfterShorter(caps: Caps, c: seq<Byte>, c': seq<Byte>)
    requires [] !in caps && c in caps && c' in caps && c != [] && c[0] == ESC && !EndsInEsc(c) && c < c'
    ensures var chunks := [c, c'[|c|..]];
            GoodCut(chunks) && Feed(caps, true, [], chunks) != Drain(caps, true, Flatten(chunks))
  {
    var t := c'[|c|..];
    assert [c, t][2..] == [];
    assert c + t == c' && [] + t == t;
    FlattenTwo(c, t);
    SplitCap(caps, c, t, c');
  }

  lemma {:induction false} SplitCap(caps: Caps, c: seq<Byte>, t: seq<Byte>, c': seq<Byte>)
    requires [] !in caps && c in caps && c' in caps && |c| > 1 && c[0] == ESC && c' == c + t && t != []
    ensures Feed(caps, true, [], [c, t]) != Drain(caps, true, c')
  {
    FeedTwo(caps, true, c, t);
    assert [] + t == t;
    WholeCap(caps, c);
    WholeCap(caps, c');
    SomethingComes(caps, t);
    NotBoth(Drain(caps, true, c), Drain(caps, true, t), Drain(caps, true, c'));
  }

  lemma {:induction false} NotBoth(d: Drained, e: Drained, whole: Drained)
    requires |d.events| == 1 && e != Drained([], []) && |whole.events| == 1 && whole.rest == []
    ensures Drained(d.events + e.events, e.rest) != whole
  {
  }

  /** In ESC mode the cuts that do not follow an escape character are harmless for every stream,
      exactly if no escape sequence (but one that ends in an escape) begins another one. */
  lemma {:induction false} GoodCutsExactly(caps: Caps)
    requires [] !in caps
    ensures (forall chunks {:trigger GoodCut(chunks)} :: GoodCut(chunks) ==>
               Feed(caps, true, [], chunks) == Drain(caps, true, Flatten(chunks))) <==> Unambiguous(caps)
  {
    if Unambiguous(caps) {
      forall chunks {:trigger GoodCut(chunks)} | GoodCut(chunks)
        ensures Feed(caps, true, [], chunks) == Drain(caps, true, Flatten(chunks))
      {
        GoodCutClean(caps, [], chunks);
        assert [] + Flatten(chunks) == Flatten(chunks);
        CleanFeed(caps, true, [], chunks, Flatten(chunks));
      }
    } else {
      var c, c' :| c in caps && c' in caps && c != [] && c[0] == ESC && !EndsInEsc(c) && c < c';
      CutAfterShorter(caps, c, c');
    }
  }

  /** The first event of an input that starts with an escape is the escape key exactly if there is
      no escape sequence. */
  lemma {:induction false} EscapeKey(caps: Caps, a: seq<Byte>)
    requires [] !in caps && |a| > 1 && a[0] == ESC && forall c :: c in caps ==> caps[c].key != ESC
    ensures var d, key := Drain(caps, true, a), BLANK.(kind := KeyEvent, key := ESC);
            var t := Drain(caps, true, a[1..]);
            if ExtractEsc(caps, a, BLANK).rv == Error then d == Drained([key] + t.events, t.rest)
            else d.events == [] || d.events[0] != key
  {
    SameEsc(caps, a, BLANK);
  }

  lemma {:induction false} SameFirst(d: Drained, t: Drained, key: Event, none: bool)
    requires if none then d == Drained([key] + t.events, t.rest) else d.events == [] || d.events[0] != key
    ensures Drained([key] + t.events, t.rest) == d <==> none
  {
  }

  lemma {:induction false} EscapeFirst(caps: Caps, b: seq<Byte>)
    requires [] !in caps
    ensures var key, t := BLANK.(kind := KeyEvent, key := ESC), Drain(caps, true, b);
            Feed(caps, true, [], [[ESC], b]) == Drained([key] + t.events, t.rest)
  {
    var e := [ESC];
    FeedTwo(caps, true, e, b);
    DrainStep(caps, true, e, BLANK.(kind := KeyEvent, key := ESC), []);
    assert [] + b == b;
  }

  /** A cut right after an escape character at the start is harmless exactly if no escape
      sequence, and no beginning of one, starts there. */
  lemma {:induction false} EscapeAloneExactly(caps: Caps, b: seq<Byte>)
    requires [] !in caps && b != [] && forall c :: c in caps ==> caps[c].key != ESC
    ensures Feed(caps, true, [], [[ESC], b]) == Drain(caps, true, [ESC] + b) <==>
            ExtractEsc(caps, [ESC] + b, BLANK).rv == Error
  {
    var all := [ESC] + b;
    assert all[1..] == b;
    EscapeFirst(caps, b);
    EscapeKey(caps, all);
    SameFirst(Drain(caps, true, all), Drain(caps, true, b), BLANK.(kind := KeyEvent, key := ESC),
              ExtractEsc(caps, all, BLANK).rv == Error);
  }

  // ----- ALT mode

  lemma {:induction false} AltAcute()
    ensures Decode([0xc3, 0xa9]) == Decoded(2, 0xe9)
  {
    var e: seq<Byte> := [0xc3, 0xa9];
    assert Payload(e, 1) == 3 && Payload(e, 2) == 0xe9;
  }

  /** A character after an escape, and the same character without it. */
  lemma {:induction false} AcuteArrives(a: seq<Byte>, ev: Event)
    requires a == [0xc3, 0xa9]
    ensures Extract(map[], false, a, ev) == Step(Ready, ev.(kind := KeyEvent, ch := 0xe9, key := 0), [])
    ensures Extract(map[], false, [27] + a, ev) == Extract(map[], false, a, Alt(ev))
  {
    AltAcute();
    assert a[2..] == [];
    EscapeThenOther(a, ev);
  }

  lemma {:induction false} EscapeThenOther(a: seq<Byte>, ev: Event)
    requires a != [] && a[0] != M.BRACKET
    ensures Extract(map[], false, [27] + a, ev) == Extract(map[], false, a, Alt(ev))
  {
    var all := [27] + a;
    assert all[1..] == a && all[1] == a[0];
    AfterAlt(map[], all, ev);
  }

  /** The escape is dropped from the buffer although no event comes of it. */
  lemma {:induction false} EscapeDropped()
    ensures Drain(map[], false, [27, 0xc3]) == Drained([], [0xc3])
  {
    var c: seq<Byte> := [0xc3];
    assert [27] + c == [27, 0xc3];
    EscapeThenOther(c, BLANK);
  }

  /** In ALT mode a read may end inside a character whose escape has been read: the escape is
      dropped before the character is complete, and its modifier is lost. */
  lemma {:induction false} AltIsLost()
    ensures Feed(map[], false, [], [[27, 0xc3, 0xa9]]) ==
            Drained([BLANK.(kind := KeyEvent, ch := 0xe9, mod := MOD_ALT)], [])
    ensures Feed(map[], false, [], [[27, 0xc3], [0xa9]]) == Drained([BLANK.(kind := KeyEvent, ch := 0xe9)], [])
  {
    var e: seq<Byte> := [0xc3, 0xa9];
    assert [27] + e == [27, 0xc3, 0xa9] && [0xc3] + [0xa9] == e;
    AcuteArrives(e, BLANK);
    AcuteArrives(e, Alt(BLANK));
    DrainStep(map[], false, [27, 0xc3, 0xa9], Alt(BLANK).(kind := KeyEvent, ch := 0xe9), []);
    DrainStep(map[], false, e, BLANK.(kind := KeyEvent, ch := 0xe9), []);
    FeedOne(map[], false, [27, 0xc3, 0xa9]);
    EscapeDropped();
    FeedTwo(map[], false, [27, 0xc3], [0xa9]);
  }
}
