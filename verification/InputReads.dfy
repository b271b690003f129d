/**
 Every cutting of every stream of bytes into reads, in both modes: exactly which cuttings
 give the events and the rest of the uncut stream. In ESC mode a cut right after an escape
 character matters, and in ALT mode a cut that drops an escape whose event is still to come.
 */
module InputReads {
  import opened Utf8
  import opened CapTrie
  import opened InputSpec
  import opened InputCuts
  import M = Mouse

  /** No escape sequence begins another one. A lone escape is never matched in ESC mode. */
  ghost predicate PrefixFree(caps: Caps, escMode: bool) {
    forall c, c' :: c in caps && c' in caps && c != [] && c[0] == ESC && !(escMode && |c| == 1) ==> !(c < c')
  }

  /** No escape sequence, whole or begun, starts at a. */
  predicate NoSequence(caps: Caps, a: seq<Byte>) {
    MatchCap(caps, a).NoMatch? && M.ParseMouse(a) == M.NotMouse
  }

  /** What ALT mode makes of bytes that do not give an event yet: the escapes at their start that
      begin no sequence are dropped. */
  function Bare(caps: Caps, a: seq<Byte>): (r: seq<Byte>)
    ensures |r| <= |a|
    decreases |a|
  {
    if a != [] && a[0] == ESC && NoSequence(caps, a) then Bare(caps, a[1..]) else a
  }

  /** The next event of a has the modifiers that were set before: a mouse report or a whole
      character. A key of the terminal brings its own, and an escape that is dropped sets them again. */
  predicate KeepsModifier(caps: Caps, a: seq<Byte>) {
    a != [] &&
    if a[0] == ESC then MatchCap(caps, a).NoMatch? && M.ParseMouse(a).Report?
    else IsControl(a[0]) || |a| >= CharLength(a[0])
  }

  /** The events of a that no further input changes, and the bytes behind them. */
  function Sure(caps: Caps, escMode: bool, a: seq<Byte>): Drained
    requires [] !in caps
    decreases |a|
  {
    var r := Extract(caps, escMode, a, BLANK);
    if r.rv != Ready || (escMode && a == [ESC]) then Drained([], a)
    else
      var s := Sure(caps, escMode, r.rest);
      Drained([r.ev] + s.events, s.rest)
  }

  /** A read ends where t is left behind the last event that is sure, and rest follows. */
  predicate SafeCut(caps: Caps, escMode: bool, t: seq<Byte>, rest: seq<Byte>) {
    if escMode then t == [ESC] && rest != [] ==> NoSequence(caps, t + rest)
    else Bare(caps, t) != t ==> !KeepsModifier(caps, Bare(caps, t) + rest)
  }

  predicate SafeCuts(caps: Caps, escMode: bool, buf: seq<Byte>, chunks: seq<seq<Byte>>)
    requires [] !in caps
    decreases |chunks|
  {
    chunks == [] ||
    (SafeCut(caps, escMode, Sure(caps, escMode, buf + chunks[0]).rest, Flatten(chunks[1..])) &&
     SafeCuts(caps, escMode, Drain(caps, escMode, buf + chunks[0]).rest, chunks[1..]))
  }

  // ----- steps

  lemma {:induction false} Whole(caps: Caps, escMode: bool, a: seq<Byte>)
    requires PrefixFree(caps, escMode) && a != [] && a[0] == ESC && !(escMode && |a| == 1)
    ensures Complete(caps, a)
  {
  }

  lemma {:induction false} ErrorIsNoSequence(caps: Caps, a: seq<Byte>, ev: Event)
    ensures ExtractEsc(caps, a, ev).rv == Error <==> NoSequence(caps, a)
  {
  }

  lemma {:induction false} AltAgain(ev: Event)
    ensures Alt(Alt(ev)) == Alt(ev)
  {
  }

  /** An event is the same when more input follows. */
  lemma {:induction false} ReadyLocal(caps: Caps, escMode: bool, a: seq<Byte>, b: seq<Byte>, ev: Event)
    requires PrefixFree(caps, escMode) && !(escMode && a == [ESC]) && Extract(caps, escMode, a, ev).rv == Ready
    ensures var r := Extract(caps, escMode, a, ev); Extract(caps, escMode, a + b, ev) == Step(Ready, r.ev, r.rest + b)
    decreases |a|
  {
    if a[0] != ESC {
      CharLocal(caps, escMode, a, b, ev);
    } else {
      Whole(caps, escMode, a);
      ReadyEsc(caps, escMode, a, b, ev);
    }
  }

  lemma {:induction false} ReadyEsc(caps: Caps, escMode: bool, a: seq<Byte>, b: seq<Byte>, ev: Event)
    requires PrefixFree(caps, escMode) && a != [] && a[0] == ESC && !(escMode && |a| == 1) && Complete(caps, a)
    requires Extract(caps, escMode, a, ev).rv == Ready
    ensures var r := Extract(caps, escMode, a, ev); Extract(caps, escMode, a + b, ev) == Step(Ready, r.ev, r.rest + b)
    decreases |a|, 0
  {
    if ExtractEsc(caps, a, ev).rv == More {
      FoundLocal(caps, escMode, a, b, ev);
    } else {
      EscLocal(caps, a, b, ev);
      if ExtractEsc(caps, a, ev).rv == Ready {
        FoundLocal(caps, escMode, a, b, ev);
      } else if escMode {
        KeyLocal(caps, a, b, ev);
      } else {
        AfterAlt(caps, a, ev);
        AltFollows(caps, a, b, ev);
        ReadyLocal(caps, false, a[1..], b, Alt(ev));
      }
    }
  }

  /** Where there is no event yet, ALT mode leaves the bare bytes. */
  lemma {:induction false} StuckBare(caps: Caps, a: seq<Byte>, ev: Event)
    requires Extract(caps, false, a, ev).rv != Ready
    ensures Extract(caps, false, a, ev).rest == Bare(caps, a)
    decreases |a|
  {
    if a != [] && a[0] == ESC {
      SameEsc(caps, a, ev);
      ErrorIsNoSequence(caps, a, ev);
      if ExtractEsc(caps, a, ev).rv == Error {
        AfterAlt(caps, a, ev);
        StuckBare(caps, a[1..], Alt(ev));
      } else {
        StuckFound(caps, a, ev);
      }
    } else {
      CharLocal(caps, false, a, [], ev);
    }
  }

  lemma {:induction false} StuckFound(caps: Caps, a: seq<Byte>, ev: Event)
    requires a != [] && a[0] == ESC && ExtractEsc(caps, a, ev).rv != Error
    ensures Extract(caps, false, a, ev) == ExtractEsc(caps, a, ev)
  {
  }

  /** The dropped escapes would have set the modifier, had the rest been there. */
  lemma {:induction false} DroppedAlt(caps: Caps, a: seq<Byte>, b: seq<Byte>, ev: Event)
    requires PrefixFree(caps, false) && Bare(caps, a) != a
    ensures Extract(caps, false, a + b, ev) == Extract(caps, false, Bare(caps, a) + b, Alt(ev))
    decreases |a|
  {
    Whole(caps, false, a);
    ErrorIsNoSequence(caps, a, ev);
    EscLocal(caps, a, b, ev);
    AltFollows(caps, a, b, ev);
    if Bare(caps, a[1..]) != a[1..] {
      DroppedAlt(caps, a[1..], b, Alt(ev));
      AltAgain(ev);
    }
  }

  /** The modifier shows in the next event exactly if that event keeps it. */
  lemma {:induction false} ModifierShows(caps: Caps, a: seq<Byte>)
    ensures var r, r' := Extract(caps, false, a, BLANK), Extract(caps, false, a, Alt(BLANK));
            && r.rv == r'.rv && r.rest == r'.rest
            && (KeepsModifier(caps, a) <==> r.rv == Ready && r.ev != r'.ev)
  {
    SameStatus(caps, a, BLANK, Alt(BLANK));
    if a != [] && a[0] == ESC {
      ModifierEsc(caps, a);
    } else if a != [] {
      ModifierChar(caps, a);
    }
  }

  lemma {:induction false} ModifierChar(caps: Caps, a: seq<Byte>)
    requires a != [] && a[0] != ESC
    ensures var r, r' := Extract(caps, false, a, BLANK), Extract(caps, false, a, Alt(BLANK));
            KeepsModifier(caps, a) <==> r.rv == Ready && r.ev != r'.ev
  {
  }

  lemma {:induction false} ModifierEsc(caps: Caps, a: seq<Byte>)
    requires a != [] && a[0] == ESC
    ensures var r, r' := Extract(caps, false, a, BLANK), Extract(caps, false, a, Alt(BLANK));
            KeepsModifier(caps, a) <==> r.rv == Ready && r.ev != r'.ev
  {
    SameEsc(caps, a, BLANK);
    SameEsc(caps, a, Alt(BLANK));
    if ExtractEsc(caps, a, BLANK).rv == Error {
      ErrorIsNoSequence(caps, a, BLANK);
      AfterAlt(caps, a, BLANK);
      AfterAlt(caps, a, Alt(BLANK));
      AltAgain(BLANK);
    } else {
      StuckFound(caps, a, BLANK);
      StuckFound(caps, a, Alt(BLANK));
      ModifierFound(caps, a);
    }
  }

  lemma {:induction false} ModifierFound(caps: Caps, a: seq<Byte>)
    requires ExtractEsc(caps, a, BLANK).rv != Error
    ensures var r, r' := ExtractEsc(caps, a, BLANK), ExtractEsc(caps, a, Alt(BLANK));
            MatchCap(caps, a).NoMatch? && M.ParseMouse(a).Report? <==> r.rv == Ready && r.ev != r'.ev
  {
  }

  // ----- streams

  function After(events: seq<Event>, d: Drained): Drained {
    Drained(events + d.events, d.rest)
  }

  lemma {:induction false} AfterSame(events: seq<Event>, d: Drained, e: Drained)
    ensures After(events, d) == After(events, e) <==> d == e
  {
    if events + d.events == events + e.events {
      assert d.events == (events + d.events)[|events|..] == (events + e.events)[|events|..] == e.events;
    }
  }

  lemma {:induction false} AfterTwice(x: seq<Event>, y: seq<Event>, d: Drained)
    ensures After(x + y, d) == After(x, After(y, d)) && After([], d) == d
  {
    assert (x + y) + d.events == x + (y + d.events) && [] + d.events == d.events;
  }

  lemma {:induction false} SureDrain(caps: Caps, escMode: bool, a: seq<Byte>, b: seq<Byte>)
    requires [] !in caps && PrefixFree(caps, escMode)
    ensures var s := Sure(caps, escMode, a);
            Drain(caps, escMode, a + b) == After(s.events, Drain(caps, escMode, s.rest + b))
    decreases |a|
  {
    var r := Extract(caps, escMode, a, BLANK);
    if r.rv != Ready || (escMode && a == [ESC]) {
      AfterTwice([], [], Drain(caps, escMode, a + b));
    } else {
      ReadyLocal(caps, escMode, a, b, BLANK);
      SureDrain(caps, escMode, r.rest, b);
      DrainStep(caps, escMode, a + b, r.ev, r.rest + b);
      var s := Sure(caps, escMode, r.rest);
      AfterTwice([r.ev], s.events, Drain(caps, escMode, s.rest + b));
    }
  }

  /** Nothing sure can be taken from a. */
  predicate Pending(caps: Caps, escMode: bool, a: seq<Byte>) {
    (escMode && a == [ESC]) || Extract(caps, escMode, a, BLANK).rv != Ready
  }

  lemma {:induction false} SurePending(caps: Caps, escMode: bool, a: seq<Byte>)
    requires [] !in caps
    ensures Pending(caps, escMode, Sure(caps, escMode, a).rest)
    decreases |a|
  {
    var r := Extract(caps, escMode, a, BLANK);
    if !(r.rv != Ready || (escMode && a == [ESC])) {
      SurePending(caps, escMode, r.rest);
    }
  }

  lemma {:induction false} FeedStep(caps: Caps, escMode: bool, buf: seq<Byte>, chunks: seq<seq<Byte>>)
    requires [] !in caps && chunks != []
    ensures var d := Drain(caps, escMode, buf + chunks[0]);
            Feed(caps, escMode, buf, chunks) == After(d.events, Feed(caps, escMode, d.rest, chunks[1..]))
  {
  }

  /** An event that keeps the modifier comes first, with the modifiers that are set in what is
      buffered, however its bytes arrive. */
  lemma {:induction false} FeedFirst(caps: Caps, buf: seq<Byte>, chunks: seq<seq<Byte>>, all: seq<Byte>)
    requires [] !in caps && PrefixFree(caps, false) && Drain(caps, false, buf) == Drained([], buf)
    requires all == buf + Flatten(chunks) && KeepsModifier(caps, all)
    ensures var f := Feed(caps, false, buf, chunks);
            f.events != [] && f.events[0] == Extract(caps, false, all, BLANK).ev
    decreases |chunks|
  {
    ModifierShows(caps, all);
    assert buf + [] == buf;
    if chunks != [] {
      var a, rest := buf + chunks[0], Flatten(chunks[1..]);
      assert all == a + rest;
      FeedStep(caps, false, buf, chunks);
      FirstRead(caps, a, rest, all);
      if Extract(caps, false, a, BLANK).rv != Ready {
        AfterTwice([], [], Feed(caps, false, a, chunks[1..]));
        FeedFirst(caps, a, chunks[1..], all);
      }
    }
  }

  /** The event is in the bytes read first, or all of these stay. */
  lemma {:induction false} FirstRead(caps: Caps, a: seq<Byte>, rest: seq<Byte>, all: seq<Byte>)
    requires [] !in caps && PrefixFree(caps, false) && all == a + rest && KeepsModifier(caps, all)
    ensures var d := Drain(caps, false, a);
            if Extract(caps, false, a, BLANK).rv != Ready then d == Drained([], a)
            else d.events != [] && d.events[0] == Extract(caps, false, all, BLANK).ev
  {
    if Extract(caps, false, a, BLANK).rv == Ready {
      ReadyLocal(caps, false, a, rest, BLANK);
    } else {
      StuckBare(caps, a, BLANK);
      if Bare(caps, a) != a {
        Whole(caps, false, a);
        ErrorIsNoSequence(caps, a, BLANK);
        EscLocal(caps, a, rest, BLANK);
        ErrorIsNoSequence(caps, all, BLANK);
      }
    }
  }

  lemma {:induction false} TailAlt(caps: Caps, t: seq<Byte>, tail: seq<seq<Byte>>, rest: seq<Byte>)
    requires [] !in caps && PrefixFree(caps, false) && Pending(caps, false, t) && rest == Flatten(tail)
    ensures var f := Feed(caps, false, Bare(caps, t), tail);
            f == Drain(caps, false, t + rest) <==>
            SafeCut(caps, false, t, rest) && f == Drain(caps, false, Bare(caps, t) + rest)
  {
    var u := Bare(caps, t);
    if u != t {
      DroppedAlt(caps, t, rest, BLANK);
      ModifierShows(caps, u + rest);
      if KeepsModifier(caps, u + rest) {
        StuckBare(caps, t, BLANK);
        NothingLeft(caps, false, t);
        FeedFirst(caps, u, tail, u + rest);
      }
    }
  }

  ghost predicate NoEscapeKey(caps: Caps) {
    forall c :: c in caps ==> caps[c].key != ESC
  }

  lemma {:induction false} AfterKey(f: Drained, d: Drained, key: Event, whole: Drained, none: bool)
    requires if none then whole == After([key], d) else whole.events == [] || whole.events[0] != key
    ensures After([key], f) == whole <==> none && f == d
  {
    AfterSame([key], f, d);
  }

  lemma {:induction false} TailEscape(caps: Caps, f: Drained, rest: seq<Byte>)
    requires [] !in caps && NoEscapeKey(caps)
    ensures var key := BLANK.(kind := KeyEvent, key := ESC);
            After([key], f) == Drain(caps, true, [ESC] + rest) <==>
            SafeCut(caps, true, [ESC], rest) && f == Drain(caps, true, rest)
  {
    var key, whole := BLANK.(kind := KeyEvent, key := ESC), [ESC] + rest;
    assert whole[1..] == rest;
    if rest == [] {
      DrainStep(caps, true, whole, key, []);
      AfterKey(f, Drain(caps, true, rest), key, Drain(caps, true, whole), true);
    } else {
      EscapeKey(caps, whole);
      ErrorIsNoSequence(caps, whole, BLANK);
      AfterKey(f, Drain(caps, true, rest), key, Drain(caps, true, whole), NoSequence(caps, whole));
    }
  }

  lemma {:induction false} DrainPending(caps: Caps, escMode: bool, t: seq<Byte>)
    requires [] !in caps && Pending(caps, escMode, t)
    ensures Drain(caps, escMode, t) ==
            if !escMode then Drained([], Bare(caps, t))
            else if t == [ESC] then Drained([BLANK.(kind := KeyEvent, key := ESC)], [])
            else Drained([], t)
  {
    if !escMode {
      StuckBare(caps, t, BLANK);
    } else if t == [ESC] {
      DrainStep(caps, true, t, BLANK.(kind := KeyEvent, key := ESC), []);
    } else {
      StuckEsc(caps, t, BLANK);
    }
  }

  /** What happens at one cut. */
  lemma {:induction false} TailExactly(caps: Caps, escMode: bool, t: seq<Byte>, tail: seq<seq<Byte>>, rest: seq<Byte>)
    requires [] !in caps && PrefixFree(caps, escMode) && (escMode ==> NoEscapeKey(caps))
    requires Pending(caps, escMode, t) && rest == Flatten(tail)
    ensures var d := Drain(caps, escMode, t);
            var f := Feed(caps, escMode, d.rest, tail);
            After(d.events, f) == Drain(caps, escMode, t + rest) <==>
            SafeCut(caps, escMode, t, rest) && f == Drain(caps, escMode, d.rest + rest)
  {
    var f := Feed(caps, escMode, Drain(caps, escMode, t).rest, tail);
    DrainPending(caps, escMode, t);
    AfterTwice([], [], f);
    if !escMode {
      TailAlt(caps, t, tail, rest);
    } else if t == [ESC] {
      assert [] + rest == rest;
      TailEscape(caps, f, rest);
    }
  }

  lemma {:induction false} FeedExactly(caps: Caps, escMode: bool, buf: seq<Byte>, chunks: seq<seq<Byte>>,
          all: seq<Byte>)
    requires [] !in caps && PrefixFree(caps, escMode) && (escMode ==> NoEscapeKey(caps))
    requires Drain(caps, escMode, buf) == Drained([], buf) && all == buf + Flatten(chunks)
    ensures Feed(caps, escMode, buf, chunks) == Drain(caps, escMode, all) <==> SafeCuts(caps, escMode, buf, chunks)
    decreases |chunks|
  {
    if chunks == [] {
      assert all == buf;
    } else {
      var a, tail, rest := buf + chunks[0], chunks[1..], Flatten(chunks[1..]);
      var d, s := Drain(caps, escMode, a), Sure(caps, escMode, a);
      Regroup(buf, chunks[0], rest);
      NothingLeft(caps, escMode, a);
      FeedExactly(caps, escMode, d.rest, tail, d.rest + rest);
      FirstCut(caps, escMode, a, tail, rest, all);
      FeedStep(caps, escMode, buf, chunks);
    }
  }

  /** The first cut, and the others. */
  lemma {:induction false} FirstCut(caps: Caps, escMode: bool, a: seq<Byte>, tail: seq<seq<Byte>>,
          rest: seq<Byte>, all: seq<Byte>)
    requires [] !in caps && PrefixFree(caps, escMode) && (escMode ==> NoEscapeKey(caps))
    requires rest == Flatten(tail) && all == a + rest
    ensures var d := Drain(caps, escMode, a);
            var f := Feed(caps, escMode, d.rest, tail);
            After(d.events, f) == Drain(caps, escMode, all) <==>
            SafeCut(caps, escMode, Sure(caps, escMode, a).rest, rest) && f == Drain(caps, escMode, d.rest + rest)
  {
    var s := Sure(caps, escMode, a);
    var t := Drain(caps, escMode, s.rest);
    assert a + [] == a && s.rest + [] == s.rest;
    SureDrain(caps, escMode, a, []);
    SureDrain(caps, escMode, a, rest);
    SurePending(caps, escMode, a);
    TailExactly(caps, escMode, s.rest, tail, rest);
    var f := Feed(caps, escMode, t.rest, tail);
    AfterTwice(s.events, t.events, f);
    AfterSame(s.events, After(t.events, f), Drain(caps, escMode, s.rest + rest));
  }

  /** In either mode, for any bytes and any cutting: the reads give the events and the rest of the
      uncut stream if and only if every cut is safe. */
  lemma {:induction false} CutsExactly(caps: Caps, escMode: bool, chunks: seq<seq<Byte>>)
    requires [] !in caps && PrefixFree(caps, escMode) && (escMode ==> NoEscapeKey(caps))
    ensures Feed(caps, escMode, [], chunks) == Drain(caps, escMode, Flatten(chunks)) <==>
            SafeCuts(caps, escMode, [], chunks)
  {
    assert [] + Flatten(chunks) == Flatten(chunks);
    FeedExactly(caps, escMode, [], chunks, Flatten(chunks));
  }

  // ----- without the condition on the capabilities

  lemma {:induction false} BareIsSome(caps: Caps, a: seq<Byte>)
    ensures Bare(caps, a) == [] <==> a == []
    decreases |a|
  {
    if a != [] && a[0] == ESC && NoSequence(caps, a) {
      assert |a| > 1;
      BareIsSome(caps, a[1..]);
    }
  }

  /** A cut at the end of the stream is always safe. */
  lemma {:induction false} LastSafe(caps: Caps, escMode: bool, t: seq<Byte>)
    requires [] !in caps && Pending(caps, escMode, t)
    ensures SafeCut(caps, escMode, t, [])
  {
    if !escMode {
      StuckBare(caps, t, BLANK);
      StuckAlt(caps, t, BLANK);
      ModifierShows(caps, Bare(caps, t));
      assert Bare(caps, t) + [] == Bare(caps, t);
    }
  }

  lemma {:induction false} SafeTwo(caps: Caps, escMode: bool, a: seq<Byte>, b: seq<Byte>)
    requires [] !in caps
    ensures SafeCuts(caps, escMode, [], [a, b]) <==> SafeCut(caps, escMode, Sure(caps, escMode, a).rest, b)
  {
    var last: seq<seq<Byte>> := [b];
    var d := Drain(caps, escMode, a);
    assert [a, b][1..] == last && last[1..] == [] && [] + a == a;
    assert Flatten(last) == b + [] == b;
    SurePending(caps, escMode, d.rest + b);
    LastSafe(caps, escMode, Sure(caps, escMode, d.rest + b).rest);
    assert SafeCuts(caps, escMode, d.rest, last);
  }

  lemma {:induction false} WholeSequence(caps: Caps, escMode: bool, c: seq<Byte>)
    requires [] !in caps && c in caps && c != [] && c[0] == ESC && !(escMode && |c| == 1)
    ensures Extract(caps, escMode, c, BLANK).rv == Ready && Extract(caps, escMode, c, BLANK).rest == []
    ensures |Drain(caps, escMode, c).events| == 1 && Drain(caps, escMode, c).rest == []
  {
    assert c[..|c|] == c && c[|c|..] == [];
    FoundExactly(caps, c, |c|);
    assert Drain(caps, escMode, []) == Drained([], []);
  }

  lemma {:induction false} SomeComes(caps: Caps, escMode: bool, a: seq<Byte>)
    requires [] !in caps && a != []
    ensures Drain(caps, escMode, a) != Drained([], [])
  {
    if Pending(caps, escMode, a) {
      DrainPending(caps, escMode, a);
      BareIsSome(caps, a);
    }
  }

  /** The reads give the events and the rest of the uncut stream exactly if every cut is safe. */
  ghost predicate Foretold(caps: Caps, escMode: bool, chunks: seq<seq<Byte>>)
    requires [] !in caps
  {
    Feed(caps, escMode, [], chunks) == Drain(caps, escMode, Flatten(chunks)) <==> SafeCuts(caps, escMode, [], chunks)
  }

  /** Between a sequence and a longer one that it begins, a cut is safe and not harmless. */
  lemma {:induction false} SafeNotHarmless(caps: Caps, escMode: bool, c: seq<Byte>, c': seq<Byte>)
    requires [] !in caps && c in caps && c' in caps && c != [] && c[0] == ESC && !(escMode && |c| == 1) && c < c'
    ensures !Foretold(caps, escMode, [c, c'[|c|..]])
  {
    var t := c'[|c|..];
    assert c + t == c' && [] + t == t;
    FlattenTwo(c, t);
    WholeSequence(caps, escMode, c);
    WholeSequence(caps, escMode, c');
    SafeTwo(caps, escMode, c, t);
    FeedTwo(caps, escMode, c, t);
    SomeComes(caps, escMode, t);
    NotBoth(Drain(caps, escMode, c), Drain(caps, escMode, t), Drain(caps, escMode, c'));
  }

  lemma {:induction false} AllForetold(caps: Caps, escMode: bool, chunks: seq<seq<Byte>>)
    requires [] !in caps && PrefixFree(caps, escMode) && (escMode ==> NoEscapeKey(caps))
    ensures Foretold(caps, escMode, chunks)
  {
    CutsExactly(caps, escMode, chunks);
  }

  lemma {:induction false} OneNotForetold(caps: Caps, escMode: bool) returns (chunks: seq<seq<Byte>>)
    requires [] !in caps && !PrefixFree(caps, escMode)
    ensures !Foretold(caps, escMode, chunks)
  {
    var c, c' :| c in caps && c' in caps && c != [] && c[0] == ESC && !(escMode && |c| == 1) && c < c';
    SafeNotHarmless(caps, escMode, c, c');
    chunks := [c, c'[|c|..]];
  }

  /** The safe cuts are the harmless ones for every stream, exactly if no sequence begins another. */
  lemma {:induction false} SafeIsHarmlessExactly(caps: Caps, escMode: bool)
    requires [] !in caps && (escMode ==> NoEscapeKey(caps))
    ensures (forall chunks :: Foretold(caps, escMode, chunks)) <==> PrefixFree(caps, escMode)
  {
    if PrefixFree(caps, escMode) {
      forall chunks
        ensures Foretold(caps, escMode, chunks)
      {
        AllForetold(caps, escMode, chunks);
      }
    } else {
      var chunks := OneNotForetold(caps, escMode);
    }
  }

  // ----- ALT mode, one cut

  /** A cut behind bytes that give no event yet. */
  lemma {:induction false} AltCutExactly(caps: Caps, a: seq<Byte>, b: seq<Byte>)
    requires [] !in caps && PrefixFree(caps, false) && Extract(caps, false, a, BLANK).rv != Ready
    ensures Feed(caps, false, [], [a, b]) == Drain(caps, false, a + b) <==>
            Bare(caps, a) == a || !KeepsModifier(caps, Bare(caps, a) + b)
  {
    FlattenTwo(a, b);
    CutsExactly(caps, false, [a, b]);
    SafeTwo(caps, false, a, b);
  }

  /** A cut inside a character behind an escape is harmless exactly as long as the character stays
      incomplete. */
  lemma {:induction false} CutInCharacter(caps: Caps, u: seq<Byte>, b: seq<Byte>)
    requires [] !in caps && PrefixFree(caps, false) && u != [] && u[0] != ESC
    requires !IsControl(u[0]) && |u| < CharLength(u[0]) && NoSequence(caps, [ESC] + u)
    ensures Feed(caps, false, [], [[ESC] + u, b]) == Drain(caps, false, [ESC] + u + b) <==>
            |u + b| < CharLength(u[0])
  {
    var a := [ESC] + u;
    assert a[1..] == u && (u + b)[0] == u[0];
    ErrorIsNoSequence(caps, a, BLANK);
    AfterAlt(caps, a, BLANK);
    AltCutExactly(caps, a, b);
  }

  lemma {:induction false} ClickArrives(report: seq<Byte>, ev: Event)
    requires report == [27, 91, 77, 32, 34, 34]
    ensures Extract(map[], false, report, ev) == Step(Ready, Event(MouseEvent, ev.mod, M.KEY_LEFT, ev.ch, 1, 1), [])
  {
    NoCaps(report);
    assert M.ParseMouse(report) == M.Report(M.KEY_LEFT, false, 1, 1, 6);
    assert report[6..] == [];
  }

  lemma {:induction false} NoCaps(a: seq<Byte>)
    ensures MatchCap(map[], a) == CapTrie.NoMatch
  {
    DepthIsLongest(map[], a);
  }

  lemma {:induction false} EscapeWaits()
    ensures Drain(map[], false, [27, 27]) == Drained([], [27])
  {
    var e: seq<Byte> := [27];
    assert e + e == [27, 27];
    NoCaps(e);
    EscapeThenOther(e, BLANK);
    StuckFound(map[], e, Alt(BLANK));
  }

  /** The other way to lose the modifier: the report of a mouse click with ALT, cut right after its
      escape, although no character is cut. */
  lemma {:induction false} AltMouseIsLost()
    ensures Feed(map[], false, [], [[27, 27, 91, 77, 32, 34, 34]]) ==
            Drained([Event(MouseEvent, MOD_ALT, M.KEY_LEFT, 0, 1, 1)], [])
    ensures Feed(map[], false, [], [[27, 27], [91, 77, 32, 34, 34]]) ==
            Drained([Event(MouseEvent, 0, M.KEY_LEFT, 0, 1, 1)], [])
  {
    var all, report: seq<Byte> := [27, 27, 91, 77, 32, 34, 34], [27, 91, 77, 32, 34, 34];
    assert [27] + report == all && [27] + [91, 77, 32, 34, 34] == report;
    ClickArrives(report, BLANK);
    ClickArrives(report, Alt(BLANK));
    EscapeThenOther(report, BLANK);
    DrainStep(map[], false, all, Event(MouseEvent, MOD_ALT, M.KEY_LEFT, 0, 1, 1), []);
    DrainStep(map[], false, report, Event(MouseEvent, 0, M.KEY_LEFT, 0, 1, 1), []);
    FeedOne(map[], false, all);
    EscapeWaits();
    FeedTwo(map[], false, [27, 27], [91, 77, 32, 34, 34]);
  }
}
