/** extract_event and its helpers over the byte buffer and the capability trie on the heap. */
module InputDecoder {
  import opened Utf8
  import opened CapTrie
  import opened InputSpec
  import ByteBuf
  import M = Mouse

  lemma {:induction false} InsertNext(caps: seq<(seq<Byte>, Cap)>, i: nat)
    requires i < |caps|
    ensures InsertAll(caps[..i + 1]) == Insert(InsertAll(caps[..i]), caps[i].0, caps[i].1)
  {
    assert caps[..i + 1][..i] == caps[..i];
  }

  /** init_cap_trie */
  method BuildTrie(caps: seq<(seq<Byte>, Cap)>) returns (t: Trie)
    ensures t.Valid() && t.caps == InsertAll(caps)
  {
    t := new Trie();
    for i := 0 to |caps|
      invariant t.Valid() && fresh(t) && fresh(t.at.Values) && t.caps == InsertAll(caps[..i])
    {
      InsertNext(caps, i);
      var ok := t.Add(caps[i].0, caps[i].1.key, caps[i].1.mod);
    }
    assert caps[..|caps|] == caps;
  }

  lemma {:induction false} NoEscape(caps: Caps, escMode: bool, buf: seq<Byte>, ev: Event)
    requires buf != [] && buf[0] != ESC
    ensures var r, first, n := Extract(caps, escMode, buf, ev), buf[0], CharLength(buf[0]);
            if IsControl(first) then
              r == Step(Ready, ev.(kind := KeyEvent, ch := 0, key := first, mod := ev.mod | MOD_CTRL), buf[1..])
            else if |buf| < n then r == Step(Error, ev, buf)
            else
              var ch := if Decode(buf).rv > 0 then Decode(buf).ch else ev.ch;
              r == Step(Ready, ev.(kind := KeyEvent, ch := ch, key := 0), buf[n..])
  {
  }

  /** extract_event on bytes that do not start with escape: the event, and how many to drop. */
  method TakeChar(ghost caps: Caps, ghost escMode: bool, buf: seq<Byte>, ev: Event)
    returns (rv: Status, ev': Event, n: nat)
    requires buf != [] && buf[0] != ESC
    ensures n <= |buf| && Extract(caps, escMode, buf, ev) == Step(rv, ev', buf[n..])
  {
    NoEscape(caps, escMode, buf, ev);
    var first := buf[0];
    if first < 0x20 || first == 0x7f {
      return Ready, ev.(kind := KeyEvent, ch := 0, key := first, mod := ev.mod | MOD_CTRL), 1;
    }
    n := CharLength(first);
    if |buf| >= n {
      var d, ch := CharToUnicode(buf);
      return Ready, ev.(kind := KeyEvent, ch := if d > 0 then ch else ev.ch, key := 0), n;
    }
    return Error, ev, 0;
  }

  lemma {:induction false} EscSkipped(caps: Caps, escMode: bool, buf: seq<Byte>, ev: Event)
    requires buf != [] && buf[0] == ESC
    requires (escMode && |buf| == 1) || InputSpec.ExtractEsc(caps, buf, ev).rv == Error
    ensures Extract(caps, escMode, buf, ev) ==
            if escMode then Step(Ready, ev.(kind := KeyEvent, ch := 0, key := ESC, mod := 0), buf[1..])
            else Extract(caps, escMode, buf[1..], ev.(mod := ev.mod | MOD_ALT))
  {
  }

  class Decoder {
    const input: ByteBuf.Buffer
    const trie: Trie
    var escMode: bool  // TB_INPUT_ESC, as opposed to TB_INPUT_ALT

    ghost predicate Valid()
      reads this, input, input.buf, trie, trie.at.Values
    {
      input.Valid() && trie.Valid()
    }

    ghost function Bytes(): seq<Byte>
      requires Valid()
      reads this, input, input.buf, trie, trie.at.Values
    {
      input.Contents()
    }

    /** An empty queue, and the capabilities added in order (init_cap_trie). */
    constructor (caps: seq<(seq<Byte>, Cap)>)
      ensures Valid() && fresh(input) && fresh(input.buf)
      ensures Bytes() == [] && escMode && trie.caps == InsertAll(caps)
    {
      var queue := new ByteBuf.Buffer();
      var index := BuildTrie(caps);
      input, trie, escMode := queue, index, true;
    }

    /** The step that a call implements. */
    ghost predicate Did(s: Step, rv: Status, ev: Event)
      requires Valid()
      reads this, input, input.buf, trie, trie.at.Values
    {
      rv == s.rv && ev == s.ev && Bytes() == s.rest
    }

    /** bytebuf_shift on the input, which does not touch the trie. */
    method Shift(n: nat)
      requires Valid() && n <= |Bytes()|
      modifies input`len, input`removed, input.buf
      ensures Valid() && input.buf == old(input.buf) && Bytes() == old(Bytes())[n..]
    {
      input.Shift(n);
    }

    method ExtractEscCap(ev: Event) returns (rv: Status, ev': Event)
      requires Valid()
      modifies input`len, input`removed, input.buf
      ensures Valid() && input.buf == old(input.buf)
      ensures Did(ExtractCap(trie.caps, old(Bytes()), ev), rv, ev')
    {
      var m := trie.Extract(input.buf[..input.len]);
      match m
      case Found(cap, n) =>
        Shift(n);
        return Ready, ev.(kind := KeyEvent, ch := 0, key := cap.key, mod := cap.mod);
      case NeedMore =>
        return More, ev;
      case NoMatch =>
        return Error, ev;
    }

    method ExtractEscMouse(ev: Event) returns (rv: Status, ev': Event)
      requires Valid()
      modifies input`len, input`removed, input.buf
      ensures Valid() && input.buf == old(input.buf)
      ensures Did(ExtractMouse(old(Bytes()), ev), rv, ev')
    {
      var r := M.ReadReport(input.buf[..input.len]);
      match r
      case Report(key, motion, x, y, n) =>
        Shift(n);
        return Ready, ev.(kind := MouseEvent, key := key, x := x, y := y,
                          mod := if motion then ev.mod | MOD_MOTION else ev.mod);
      case NeedMore =>
        return More, ev;
      case NotMouse =>
        return Error, ev;
    }

    method ExtractEsc(ev: Event) returns (rv: Status, ev': Event)
      requires Valid()
      modifies input`len, input`removed, input.buf
      ensures Valid() && input.buf == old(input.buf)
      ensures Did(InputSpec.ExtractEsc(trie.caps, old(Bytes()), ev), rv, ev')
    {
      ghost var caps, was := trie.caps, Bytes();
      rv, ev' := ExtractEscCap(ev);
      assert rv == Error ==> Bytes() == was && trie.caps == caps;
      if rv != Error {
        return;
      }
      rv, ev' := ExtractEscMouse(ev);
    }

    method ExtractChar(ev: Event) returns (rv: Status, ev': Event)
      requires Valid() && Bytes() != [] && Bytes()[0] != ESC
      modifies input`len, input`removed, input.buf
      ensures Valid() && input.buf == old(input.buf)
      ensures Did(Extract(trie.caps, escMode, old(Bytes()), ev), rv, ev')
    {
      var n;
      rv, ev', n := TakeChar(trie.caps, escMode, input.buf[..input.len], ev);
      Shift(n);
    }

    /** extract_event */
    method ExtractEvent(ev: Event) returns (rv: Status, ev': Event)
      requires Valid()
      modifies input`len, input`removed, input.buf
      ensures Valid() && input.buf == old(input.buf)
      ensures Did(Extract(trie.caps, escMode, old(Bytes()), ev), rv, ev')
      decreases input.len, 1
    {
      if input.len == 0 {
        return Error, ev;
      }
      if input.buf[0] != ESC {
        rv, ev' := ExtractChar(ev);
        return;
      }
      if !(escMode && input.len == 1) {
        rv, ev' := ExtractEsc(ev);
        if rv != Error {
          return;
        }
      }
      rv, ev' := ExtractAfterEsc(ev);
    }

    /** No escape sequence starts here: the escape is an event, or modifies the next one. */
    method ExtractAfterEsc(ev: Event) returns (rv: Status, ev': Event)
      requires Valid() && input.len > 0 && input.buf[0] == ESC
      requires (escMode && input.len == 1) || InputSpec.ExtractEsc(trie.caps, Bytes(), ev).rv == Error
      modifies input`len, input`removed, input.buf
      ensures Valid() && input.buf == old(input.buf)
      ensures Did(Extract(trie.caps, escMode, old(Bytes()), ev), rv, ev')
      decreases input.len, 0
    {
      EscSkipped(trie.caps, escMode, Bytes(), ev);
      input.Shift(1);
      if escMode {
        return Ready, ev.(kind := KeyEvent, ch := 0, key := ESC, mod := 0);
      }
      rv, ev' := ExtractEvent(ev.(mod := ev.mod | MOD_ALT));
    }

    /** Events are taken until there are none. */
    method DrainQueue() returns (events: seq<Event>)
      requires Valid()
      modifies input`len, input`removed, input.buf
      ensures Valid() && input.buf == old(input.buf)
      ensures var d := Drain(trie.caps, escMode, old(Bytes())); events == d.events && Bytes() == d.rest
      decreases input.len
    {
      var rv, ev := ExtractEvent(BLANK);
      if rv != Ready {
        return [];
      }
      var more := DrainQueue();
      return [ev] + more;
    }

    /** A read appends to the queue, and then events are taken. */
    method ReadAndDrain(chunk: seq<Byte>) returns (events: seq<Event>)
      requires Valid()
      modifies input, input.buf
      ensures Valid() && (input.buf == old(input.buf) || fresh(input.buf))
      ensures var d := Drain(trie.caps, escMode, old(Bytes()) + chunk); events == d.events && Bytes() == d.rest
    {
      input.NPuts(chunk);
      events := DrainQueue();
    }

    /** Reads one after the other; with TextArrives, typed text gives its code points. */
    method ReadAll(chunks: seq<seq<Byte>>) returns (events: seq<Event>)
      requires Valid()
      modifies input, input.buf
      ensures Valid() && (input.buf == old(input.buf) || fresh(input.buf))
      ensures var f := Feed(trie.caps, escMode, old(Bytes()), chunks); events == f.events && Bytes() == f.rest
      decreases |chunks|
    {
      if chunks == [] {
        return [];
      }
      var first := ReadAndDrain(chunks[0]);
      var rest := ReadAll(chunks[1..]);
      return first + rest;
    }
  }
}
