/**
 The input decoder: extract_event over a growing byte queue, and what it makes of a stream.
 Escape-free input is decoded the same however it is cut into reads; text comes back whole.
 Callbacks of the application (tb_set_func) are not part of this model.
 */
module InputSpec {
  import opened Terminal
  import opened Utf8
  import opened CapTrie
  import M = Mouse

  datatype Kind = NoEvent | KeyEvent | MouseEvent
  datatype Event = Event(kind: Kind, mod: bv8, key: nat, ch: nat, x: int, y: int)

  // memset(event, 0, sizeof(*event))
  const BLANK := Event(NoEvent, 0, 0, 0, 0, 0)

  const ESC: Byte := 0x1b
  const MOD_ALT: bv8 := 1
  const MOD_CTRL: bv8 := 2
  const MOD_MOTION: bv8 := 8

  /** TB_OK, TB_ERR_NEED_MORE and TB_ERR. */
  datatype Status = Ready | More | Error

  /** What a call returns, the event it fills in, and the bytes it leaves. */
  datatype Step = Step(rv: Status, ev: Event, rest: seq<Byte>)

  function ExtractCap(caps: Caps, buf: seq<Byte>, ev: Event): (r: Step)
    ensures r.rv != Ready ==> r.ev == ev && r.rest == buf
  {
    match MatchCap(caps, buf)
    case Found(cap, n) => Step(Ready, ev.(kind := KeyEvent, ch := 0, key := cap.key, mod := cap.mod), buf[n..])
    case NeedMore => Step(More, ev, buf)
    case NoMatch => Step(Error, ev, buf)
  }

  function ExtractMouse(buf: seq<Byte>, ev: Event): (r: Step)
    ensures r.rv != Ready ==> r.ev == ev && r.rest == buf
  {
    match M.ParseMouse(buf)
    case Report(key, motion, x, y, n) =>
      Step(Ready, ev.(kind := MouseEvent, key := key, x := x, y := y,
                      mod := if motion then ev.mod | MOD_MOTION else ev.mod), buf[n..])
    case NeedMore => Step(More, ev, buf)
    case NotMouse => Step(Error, ev, buf)
  }

  function ExtractEsc(caps: Caps, buf: seq<Byte>, ev: Event): Step {
    var r := ExtractCap(caps, buf, ev);
    if r.rv != Error then r else ExtractMouse(buf, ev)
  }

  predicate IsControl(b: Byte) {
    b < 0x20 || b == 0x7f
  }

  /** extract_event; escMode is TB_INPUT_ESC, as opposed to TB_INPUT_ALT. */
  function Extract(caps: Caps, escMode: bool, buf: seq<Byte>, ev: Event): (r: Step)
    ensures |r.rest| <= |buf|
    ensures [] !in caps && r.rv == Ready ==> |r.rest| < |buf|
    decreases |buf|
  {
    if buf == [] then Step(Error, ev, buf)
    else if buf[0] == ESC then
      var r := if escMode && |buf| == 1 then Step(Error, ev, buf) else ExtractEsc(caps, buf, ev);
      if r.rv != Error then r
      else if escMode then Step(Ready, ev.(kind := KeyEvent, ch := 0, key := ESC, mod := 0), buf[1..])
      else Extract(caps, escMode, buf[1..], ev.(mod := ev.mod | MOD_ALT))
    else if IsControl(buf[0]) then
      Step(Ready, ev.(kind := KeyEvent, ch := 0, key := buf[0], mod := ev.mod | MOD_CTRL), buf[1..])
    else if |buf| >= CharLength(buf[0]) then
      var d := Decode(buf);
      Step(Ready, ev.(kind := KeyEvent, ch := if d.rv > 0 then d.ch else ev.ch, key := 0), buf[CharLength(buf[0])..])
    else Step(Error, ev, buf)
  }

  /** Events taken until there are none, and the bytes that remain. */
  datatype Drained = Drained(events: seq<Event>, rest: seq<Byte>)

  function Drain(caps: Caps, escMode: bool, buf: seq<Byte>): Drained
    requires [] !in caps
    decreases |buf|
  {
    var r := Extract(caps, escMode, buf, BLANK);
    if r.rv != Ready then Drained([], r.rest)
    else
      var d := Drain(caps, escMode, r.rest);
      Drained([r.ev] + d.events, d.rest)
  }

  /** Reads arrive one after the other, and after each one the events are taken. */
  function Feed(caps: Caps, escMode: bool, buf: seq<Byte>, chunks: seq<seq<Byte>>): Drained
    requires [] !in caps
    decreases |chunks|
  {
    if chunks == [] then Drained([], buf)
    else
      var d := Drain(caps, escMode, buf + chunks[0]);
      var f := Feed(caps, escMode, d.rest, chunks[1..]);
      Drained(d.events + f.events, f.rest)
  }

  function Flatten(chunks: seq<seq<Byte>>): seq<Byte> {
    if chunks == [] then [] else chunks[0] + Flatten(chunks[1..])
  }

  // ----- independence of read boundaries

  lemma {:induction false} ReachLocal(s: seq<Byte>, t: seq<Byte>, len: nat, i: nat)
    requires i <= len <= |s|
    ensures Reach(s + t, len, i) == Reach(s, len, i)
    decreases len - i
  {
    if i < len {
      ReachLocal(s, t, len, i + 1);
    }
  }

  /** A character is decoded from its own bytes only. */
  lemma {:induction false} DecodeLocal(s: seq<Byte>, t: seq<Byte>)
    requires s != [] && |s| >= CharLength(s[0])
    ensures Decode(s + t) == Decode(s)
  {
    var len := CharLength(s[0]);
    ReachLocal(s, t, len, 1);
    PayloadPrefix(s, t, len);
  }

  /** An event taken from escape-free input is the same when more input follows. */
  lemma {:induction false} ExtractLocal(caps: Caps, escMode: bool, a: seq<Byte>, b: seq<Byte>)
    requires ESC !in a && Extract(caps, escMode, a, BLANK).rv == Ready
    ensures var r := Extract(caps, escMode, a, BLANK);
            Extract(caps, escMode, a + b, BLANK) == Step(Ready, r.ev, r.rest + b) && ESC !in r.rest
  {
    assert a[0] in a && (a + b)[0] == a[0];
    if IsControl(a[0]) {
      assert (a + b)[1..] == a[1..] + b;
    } else {
      var n := CharLength(a[0]);
      DecodeLocal(a, b);
      assert (a + b)[n..] == a[n..] + b;
    }
  }

  lemma {:induction false} StuckLocal(caps: Caps, escMode: bool, a: seq<Byte>)
    requires ESC !in a && Extract(caps, escMode, a, BLANK).rv != Ready
    ensures Extract(caps, escMode, a, BLANK).rest == a
  {
    if a != [] {
      assert a[0] in a;
    }
  }

  /** Draining what has arrived and then the rest is draining it all. */
  lemma {:induction false} DrainConcat(caps: Caps, escMode: bool, a: seq<Byte>, b: seq<Byte>)
    requires [] !in caps && ESC !in a
    ensures var d := Drain(caps, escMode, a);
            var e := Drain(caps, escMode, d.rest + b);
            Drain(caps, escMode, a + b) == Drained(d.events + e.events, e.rest) && ESC !in d.rest
    decreases |a|
  {
    var r := Extract(caps, escMode, a, BLANK);
    if r.rv != Ready {
      StuckLocal(caps, escMode, a);
      assert [] + Drain(caps, escMode, a + b).events == Drain(caps, escMode, a + b).events;
    } else {
      ExtractLocal(caps, escMode, a, b);
      DrainConcat(caps, escMode, r.rest, b);
      var d := Drain(caps, escMode, r.rest);
      var e := Drain(caps, escMode, d.rest + b);
      assert [r.ev] + (d.events + e.events) == ([r.ev] + d.events) + e.events;
    }
  }

  lemma {:induction false} FeedIsDrain(caps: Caps, escMode: bool, buf: seq<Byte>, chunks: seq<seq<Byte>>)
    requires [] !in caps && ESC !in buf && ESC !in Flatten(chunks)
    requires Drain(caps, escMode, buf) == Drained([], buf)
    ensures Feed(caps, escMode, buf, chunks) == Drain(caps, escMode, buf + Flatten(chunks))
    decreases |chunks|
  {
    if chunks == [] {
      assert buf + [] == buf;
    } else {
      var c, rest := chunks[0], Flatten(chunks[1..]);
      assert Flatten(chunks) == c + rest;
      var d := Drain(caps, escMode, buf + c);
      EscapesInRest(caps, escMode, buf + c, rest);
      DrainTwice(caps, escMode, buf + c);
      FeedIsDrain(caps, escMode, d.rest, chunks[1..]);
      FeedFirst(caps, escMode, buf, rest, chunks);
      assert buf + Flatten(chunks) == (buf + c) + rest;
    }
  }

  lemma {:induction false} EscapesInRest(caps: Caps, escMode: bool, a: seq<Byte>, b: seq<Byte>)
    requires [] !in caps && ESC !in a
    ensures ESC !in Drain(caps, escMode, a).rest
  {
    DrainConcat(caps, escMode, a, b);
  }

  lemma {:induction false} FeedFirst(caps: Caps, escMode: bool, buf: seq<Byte>, rest: seq<Byte>, chunks: seq<seq<Byte>>)
    requires [] !in caps && chunks != [] && ESC !in buf + chunks[0]
    requires var d := Drain(caps, escMode, buf + chunks[0]);
             Feed(caps, escMode, d.rest, chunks[1..]) == Drain(caps, escMode, d.rest + rest)
    ensures Feed(caps, escMode, buf, chunks) == Drain(caps, escMode, buf + chunks[0] + rest)
  {
    DrainConcat(caps, escMode, buf + chunks[0], rest);
  }

  /** Nothing more can be taken right after draining. */
  lemma {:induction false} DrainTwice(caps: Caps, escMode: bool, a: seq<Byte>)
    requires [] !in caps && ESC !in a
    ensures var d := Drain(caps, escMode, a); Drain(caps, escMode, d.rest) == Drained([], d.rest)
    decreases |a|
  {
    var r := Extract(caps, escMode, a, BLANK);
    if r.rv != Ready {
      StuckLocal(caps, escMode, a);
    } else {
      ExtractLocal(caps, escMode, a, []);
      DrainTwice(caps, escMode, r.rest);
    }
  }

  lemma {:induction false} FeedFromEmpty(caps: Caps, escMode: bool, chunks: seq<seq<Byte>>)
    requires [] !in caps && ESC !in Flatten(chunks)
    ensures Feed(caps, escMode, [], chunks) == Drain(caps, escMode, Flatten(chunks))
  {
    FeedIsDrain(caps, escMode, [], chunks);
    assert [] + Flatten(chunks) == Flatten(chunks);
  }

  /** Escape-free input, valid UTF-8 or not, gives the same events and the same remaining bytes
      however it is cut into reads. */
  lemma {:induction false} ReadBoundariesDoNotMatter(caps: Caps, escMode: bool, chunks: seq<seq<Byte>>,
          chunks': seq<seq<Byte>>)
    requires [] !in caps && ESC !in Flatten(chunks) && Flatten(chunks) == Flatten(chunks')
    ensures Feed(caps, escMode, [], chunks) == Feed(caps, escMode, [], chunks')
  {
    FeedFromEmpty(caps, escMode, chunks);
    FeedFromEmpty(caps, escMode, chunks');
  }

  // ----- text

  predicate IsText(c: Rune) {
    0x20 <= c <= 0x7e || 0x80 <= c < 0x8000_0000
  }

  function EncodeAll(text: seq<Rune>): seq<Byte> {
    if text == [] then [] else Encode(text[0]) + EncodeAll(text[1..])
  }

  function KeyPresses(text: seq<Rune>): (r: seq<Event>)
    ensures |r| == |text| && forall i :: 0 <= i < |r| ==> r[i] == BLANK.(kind := KeyEvent, ch := text[i])
  {
    seq(|text|, i requires 0 <= i < |text| => BLANK.(kind := KeyEvent, ch := text[i]))
  }

  lemma {:induction false} TextBytes(c: Rune)
    requires IsText(c)
    ensures ESC !in Encode(c) && !IsControl(Encode(c)[0]) && CharLength(Encode(c)[0]) == |Encode(c)|
  {
    LeadByte(c);
    TopFits(c);
    assert Top(c, 0) == c;
  }

  lemma {:induction false} DrainText(caps: Caps, escMode: bool, text: seq<Rune>)
    requires [] !in caps && forall i :: 0 <= i < |text| ==> IsText(text[i])
    ensures Drain(caps, escMode, EncodeAll(text)) == Drained(KeyPresses(text), []) && ESC !in EncodeAll(text)
    decreases |text|
  {
    if text != [] {
      var c, rest := text[0], EncodeAll(text[1..]);
      TextBytes(c);
      DecodeEncode(c, rest);
      var s := Encode(c) + rest;
      assert s[0] == Encode(c)[0] && s[|Encode(c)|..] == rest;
      DrainText(caps, escMode, text[1..]);
      assert KeyPresses(text) == [BLANK.(kind := KeyEvent, ch := c)] + KeyPresses(text[1..]);
    }
  }

  /** Text typed as UTF-8 comes back as exactly its code points, in order, with an empty buffer
      at the end, however the bytes are cut into reads. */
  lemma {:induction false} TextArrives(caps: Caps, escMode: bool, text: seq<Rune>, chunks: seq<seq<Byte>>)
    requires [] !in caps && (forall i :: 0 <= i < |text| ==> IsText(text[i])) && Flatten(chunks) == EncodeAll(text)
    ensures Feed(caps, escMode, [], chunks) == Drained(KeyPresses(text), [])
  {
    DrainText(caps, escMode, text);
    FeedFromEmpty(caps, escMode, chunks);
  }

  lemma {:induction false} FeedOne(caps: Caps, escMode: bool, a: seq<Byte>)
    requires [] !in caps
    ensures Feed(caps, escMode, [], [a]) == Drain(caps, escMode, a)
  {
    var d := Drain(caps, escMode, a);
    assert [] + a == a && [a][1..] == [] && d.events + [] == d.events;
  }

  lemma {:induction false} DrainStep(caps: Caps, escMode: bool, a: seq<Byte>, ev: Event, rest: seq<Byte>)
    requires [] !in caps && Extract(caps, escMode, a, BLANK) == Step(Ready, ev, rest)
    ensures var d := Drain(caps, escMode, rest); Drain(caps, escMode, a) == Drained([ev] + d.events, d.rest)
  {
  }

  /** Escapes are different: a key sent as ESC O P is one event when it arrives in one read,
      and three when the escape character arrives alone. */
  lemma {:induction false} EscapeInOneRead(f1: Cap)
    ensures Feed(map[[27, 79, 80] := f1], true, [], [[27, 79, 80]]) ==
            Drained([BLANK.(kind := KeyEvent, key := f1.key, mod := f1.mod)], [])
  {
    var caps: Caps := map[[27, 79, 80] := f1];
    var all: seq<Byte> := [27, 79, 80];
    assert all[..3] == all && all[3..] == [];
    assert MatchCap(caps, all) == Found(f1, 3) by {
      assert all in caps && all[..3] <= all;
      FoundExactly(caps, all, 3);
    }
    var ev := BLANK.(kind := KeyEvent, key := f1.key, mod := f1.mod);
    assert Extract(caps, true, all, BLANK) == Step(Ready, ev, []);
    DrainStep(caps, true, all, ev, []);
    FeedOne(caps, true, all);
  }

  lemma {:induction false} EscapeInTwoReads(f1: Cap)
    ensures Feed(map[[27, 79, 80] := f1], true, [], [[27], [79, 80]]) ==
            Drained([BLANK.(kind := KeyEvent, key := ESC), BLANK.(kind := KeyEvent, ch := 79),
                     BLANK.(kind := KeyEvent, ch := 80)], [])
  {
    var caps: Caps := map[[27, 79, 80] := f1];
    var e: seq<Byte> := [27];
    var o: seq<Byte> := [79, 80];
    assert e[1..] == [] && o[1..] == [80] && [80][1..] == [];
    DrainStep(caps, true, e, BLANK.(kind := KeyEvent, key := ESC), []);
    DrainStep(caps, true, o, BLANK.(kind := KeyEvent, ch := 79), [80]);
    DrainStep(caps, true, [80], BLANK.(kind := KeyEvent, ch := 80), []);
    FeedOne(caps, true, o);
    assert [] + e == e && [e, o][1..] == [o];
  }
}
