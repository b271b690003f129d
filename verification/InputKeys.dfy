/**
 Everything that can be typed: characters, control keys, keys of the terminal and mouse
 reports, and in ALT mode each of them behind an escape character. What terminals send for a
 sequence of them is decoded to exactly their events.
 */
module InputKeys {
  import opened Terminal
  import opened Utf8
  import opened CapTrie
  import opened InputSpec
  import opened InputReads
  import M = Mouse

  datatype Form = X10 | Sgr(released: bool) | Urxvt

  datatype Key =
    | Char(c: Rune)
    | Control(b: Byte)
    | Function(cap: seq<Byte>)
    | Click(form: Form, button: M.Button, low: nat, motion: bool, high: nat, x: nat, y: nat)

  /** A key, perhaps with ALT. */
  datatype Typed = Typed(key: Key, alt: bool)

  ghost predicate KeyOk(caps: Caps, key: Key) {
    match key
    case Char(c) => 0x20 <= c <= 0x7e || 0x80 <= c < 0x8000_0000
    case Control(b) => (b < 0x20 || b == 0x7f) && b != 0x1b
    case Function(cap) => cap in caps && |cap| > 1 && cap[0] == 0x1b && forall c :: c in caps ==> !(cap < c)
    case Click(form, button, low, motion, high, x, y) =>
      && low < 8 && (form.X10? ==> M.Code(button, low, motion, high) < 224 && x < 223 && y < 223)
      && Apart(caps, KeyBytes(key))
  }

  /** No capability begins the bytes m, nor the other way round. */
  ghost predicate Apart(caps: Caps, m: seq<Byte>) {
    forall c :: c in caps ==> !(c <= m) && !(m <= c)
  }

  /** What the terminal sends. */
  function KeyBytes(key: Key): seq<Byte> {
    match key
    case Char(c) => Encode(c)
    case Control(b) => [b]
    case Function(cap) => cap
    case Click(form, button, low, motion, high, x, y) =>
      var code := M.Code(button, low, motion, high);
      match form
      case X10 =>
        if code < 224 && x < 223 && y < 223 then M.X10Report(code + 32, x + 33, y + 33) else []
      case Sgr(released) => M.SgrReport(code, x + 1, y + 1, if released then 0x6d else 0x4d)
      case Urxvt => M.UrxvtReport(code + 32, x + 1, y + 1)
  }

  function Bytes(t: Typed): seq<Byte> {
    if t.alt then [0x1b] + KeyBytes(t.key) else KeyBytes(t.key)
  }

  ghost predicate TypedOk(caps: Caps, escMode: bool, t: Typed) {
    KeyOk(caps, t.key) && (t.alt ==> !escMode && t.key != Char(0x5b) && Apart(caps, Bytes(t)))
  }

  /** The event the application should get. A key of the terminal brings its own modifiers, so
      that ALT before it is lost. */
  function EventOf(caps: Caps, key: Key, alt: bool): Event {
    match key
    case Char(c) => Event(KeyEvent, if alt then 1 else 0, 0, c, 0, 0)
    case Control(b) => Event(KeyEvent, if alt then 3 else 2, b, 0, 0, 0)
    case Function(cap) =>
      if cap in caps then Event(KeyEvent, caps[cap].mod, caps[cap].key, 0, 0, 0) else BLANK
    case Click(form, button, low, motion, high, x, y) =>
      var mod := if motion then if alt then 9 else 8 else if alt then 1 else 0;
      Event(MouseEvent, mod, if form == Sgr(true) then 0xffff - 26 else M.KeyOf(button), 0, x, y)
  }

  function BytesAll(ts: seq<Typed>): seq<Byte> {
    if ts == [] then [] else Bytes(ts[0]) + BytesAll(ts[1..])
  }

  function EventsOf(caps: Caps, ts: seq<Typed>): (r: seq<Event>)
    ensures |r| == |ts| && forall i :: 0 <= i < |r| ==> r[i] == EventOf(caps, ts[i].key, ts[i].alt)
  {
    seq(|ts|, i requires 0 <= i < |ts| => EventOf(caps, ts[i].key, ts[i].alt))
  }

  // ----- one key

  lemma {:induction false} ApartNoMatch(caps: Caps, m: seq<Byte>, rest: seq<Byte>)
    requires Apart(caps, m)
    ensures MatchCap(caps, m + rest) == NoMatch
  {
    var buf := m + rest;
    forall n | 0 <= n <= |buf|
      ensures buf[..n] !in caps
    {
      PrefixesCompare(buf[..n], m, rest);
    }
    forall c | c in caps
      ensures !(buf < c)
    {
      PrefixLonger(m, buf, c);
    }
    NeedMoreExactly(caps, buf);
  }

  lemma {:induction false} PrefixLonger(a: seq<Byte>, b: seq<Byte>, c: seq<Byte>)
    ensures a <= b && b <= c ==> a <= c
    ensures a < b && b <= c ==> a < c
  {
  }

  lemma {:induction false} PrefixesCompare(c: seq<Byte>, m: seq<Byte>, rest: seq<Byte>)
    requires c <= m + rest
    ensures c <= m || m <= c
  {
    if |c| <= |m| {
      assert c == (m + rest)[..|c|] == m[..|c|];
    } else {
      assert m == (m + rest)[..|m|] == c[..|m|];
    }
  }

  /** The modifiers that an event starts with. */
  function Before(alt: bool): Event {
    BLANK.(mod := if alt then 1 else 0)
  }

  lemma {:induction false} CharArrives(caps: Caps, escMode: bool, c: Rune, alt: bool, rest: seq<Byte>)
    requires KeyOk(caps, Char(c))
    ensures Extract(caps, escMode, Encode(c) + rest, Before(alt)) == Step(Ready, EventOf(caps, Char(c), alt), rest)
  {
    TextBytes(c);
    DecodeEncode(c, rest);
    var s := Encode(c) + rest;
    assert s[0] == Encode(c)[0] && s[|Encode(c)|..] == rest;
    assert Encode(c)[0] in Encode(c);
  }

  lemma {:induction false} ControlArrives(caps: Caps, escMode: bool, b: Byte, alt: bool, rest: seq<Byte>)
    requires KeyOk(caps, Control(b))
    ensures Extract(caps, escMode, [b] + rest, Before(alt)) == Step(Ready, EventOf(caps, Control(b), alt), rest)
  {
    var s := [b] + rest;
    assert s[0] == b && s[1..] == rest;
    assert (0 as bv8) | 2 == 2 && (1 as bv8) | 2 == 3;
  }

  lemma {:induction false} FunctionArrives(caps: Caps, escMode: bool, cap: seq<Byte>, alt: bool, rest: seq<Byte>)
    requires KeyOk(caps, Function(cap))
    ensures Extract(caps, escMode, cap + rest, Before(alt)) == Step(Ready, EventOf(caps, Function(cap), alt), rest)
  {
    var s := cap + rest;
    assert s[0] == ESC && s[..|cap|] == cap && s[|cap|..] == rest;
    assert forall m :: |cap| < m <= |s| ==> s[..m][..|cap|] == cap;
    forall m, c | |cap| < m <= |s| && c in caps
      ensures !(s[..m] <= c)
    {
      PrefixLonger(cap, s[..m], c);
    }
    FoundExactly(caps, s, |cap|);
  }

  lemma {:induction false} ReportParsed(key: Key, rest: seq<Byte>)
    requires key.Click? && key.low < 8
    requires key.form.X10? ==> M.Code(key.button, key.low, key.motion, key.high) < 224 && key.x < 223 && key.y < 223
    ensures var m := KeyBytes(key);
            && |m| > 1 && m[0] == 0x1b
            && var k := if key.form == Sgr(true) then 0xffff - 26 else M.KeyOf(key.button);
               M.ParseMouse(m + rest) == M.Report(k, key.motion, key.x, key.y, |m|)
  {
    match key.form
    case X10 => M.ParseX10(key.button, key.low, key.motion, key.high, key.x, key.y, rest);
    case Sgr(released) =>
      M.ParseSgr(key.button, key.low, key.motion, key.high, key.x + 1, key.y + 1, released, rest);
    case Urxvt => M.ParseUrxvt(key.button, key.low, key.motion, key.high, key.x + 1, key.y + 1, rest);
  }

  lemma {:induction false} ClickArrives(caps: Caps, escMode: bool, key: Key, alt: bool, rest: seq<Byte>)
    requires key.Click? && KeyOk(caps, key)
    ensures Extract(caps, escMode, KeyBytes(key) + rest, Before(alt)) == Step(Ready, EventOf(caps, key, alt), rest)
  {
    var m := KeyBytes(key);
    ReportParsed(key, rest);
    ApartNoMatch(caps, m, rest);
    assert (m + rest)[0] == ESC && (m + rest)[|m|..] == rest;
    assert (0 as bv8) | 8 == 8 && (1 as bv8) | 8 == 9;
  }

  lemma {:induction false} KeyArrives(caps: Caps, escMode: bool, key: Key, alt: bool, rest: seq<Byte>)
    requires KeyOk(caps, key)
    ensures Extract(caps, escMode, KeyBytes(key) + rest, Before(alt)) == Step(Ready, EventOf(caps, key, alt), rest)
  {
    match key
    case Char(c) => CharArrives(caps, escMode, c, alt, rest);
    case Control(b) => ControlArrives(caps, escMode, b, alt, rest);
    case Function(cap) => FunctionArrives(caps, escMode, cap, alt, rest);
    case Click(_, _, _, _, _, _, _) => ClickArrives(caps, escMode, key, alt, rest);
  }

  lemma {:induction false} NoBracket(caps: Caps, key: Key)
    requires KeyOk(caps, key) && key != Char(0x5b)
    ensures KeyBytes(key) != [] && KeyBytes(key)[0] != 0x5b
  {
    match key
    case Char(c) => EncodeLayout(c);
    case Control(b) =>
    case Function(cap) =>
    case Click(_, _, _, _, _, _, _) => ReportParsed(key, []);
  }

  /** The escape before a key is taken for ALT. */
  lemma {:induction false} AltArrives(caps: Caps, k: seq<Byte>, rest: seq<Byte>)
    requires k != [] && k[0] != 0x5b && Apart(caps, [0x1b] + k)
    ensures Extract(caps, false, [0x1b] + k + rest, BLANK) == Extract(caps, false, k + rest, Before(true))
  {
    ApartNoMatch(caps, [0x1b] + k, rest);
    assert [0x1b] + k + rest == [0x1b] + (k + rest);
    EscapeDropped(caps, k + rest);
    assert (0 as bv8) | 1 == 1;
  }

  lemma {:induction false} EscapeDropped(caps: Caps, a: seq<Byte>)
    requires a != [] && a[0] != 0x5b && MatchCap(caps, [0x1b] + a) == NoMatch
    ensures Extract(caps, false, [0x1b] + a, BLANK) == Extract(caps, false, a, BLANK.(mod := 0 | 1))
  {
    var s := [0x1b] + a;
    assert s[0] == ESC && s[1] == a[0] && s[1..] == a;
  }

  lemma {:induction false} TypedArrives(caps: Caps, escMode: bool, t: Typed, rest: seq<Byte>)
    requires TypedOk(caps, escMode, t)
    ensures Extract(caps, escMode, Bytes(t) + rest, BLANK) == Step(Ready, EventOf(caps, t.key, t.alt), rest)
  {
    KeyArrives(caps, escMode, t.key, t.alt, rest);
    if t.alt {
      NoBracket(caps, t.key);
      AltArrives(caps, KeyBytes(t.key), rest);
    } else {
      assert Before(false) == BLANK;
    }
  }

  // ----- any number of keys

  lemma {:induction false} KeysDrained(caps: Caps, escMode: bool, ts: seq<Typed>)
    requires [] !in caps && forall i :: 0 <= i < |ts| ==> TypedOk(caps, escMode, ts[i])
    ensures Drain(caps, escMode, BytesAll(ts)) == Drained(EventsOf(caps, ts), [])
    decreases |ts|
  {
    if ts != [] {
      var rest := BytesAll(ts[1..]);
      TypedArrives(caps, escMode, ts[0], rest);
      KeysDrained(caps, escMode, ts[1..]);
      DrainStep(caps, escMode, BytesAll(ts), EventOf(caps, ts[0].key, ts[0].alt), rest);
      assert EventsOf(caps, ts) == [EventOf(caps, ts[0].key, ts[0].alt)] + EventsOf(caps, ts[1..]);
    }
  }

  /** Whatever is typed, and however it is cut into reads at places that are safe, the events are
      exactly those of the keys, in order, and nothing stays in the buffer. */
  lemma {:induction false} KeysArrive(caps: Caps, escMode: bool, ts: seq<Typed>, chunks: seq<seq<Byte>>)
    requires [] !in caps && InputReads.PrefixFree(caps, escMode) && (escMode ==> NoEscapeKey(caps))
    requires (forall i :: 0 <= i < |ts| ==> TypedOk(caps, escMode, ts[i])) && Flatten(chunks) == BytesAll(ts)
    ensures Feed(caps, escMode, [], chunks) == Drained(EventsOf(caps, ts), []) <==> SafeCuts(caps, escMode, [], chunks)
  {
    KeysDrained(caps, escMode, ts);
    CutsExactly(caps, escMode, chunks);
  }
}
