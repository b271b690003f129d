/**
 Decimal printing (convert_num) and the parser of mouse reports (extract_esc_mouse): the
 X10 form in six bytes, xterm's 1006 form and urxvt's 1015 form in decimal.
 */
module Mouse {
  import opened Utf8

  const ESC: Byte := 0x1b
  const BRACKET: Byte := 0x5b    // '['
  const LESS: Byte := 0x3c       // '<'
  const SEMICOLON: Byte := 0x3b  // ';'
  const UPPER_M: Byte := 0x4d    // 'M'
  const LOWER_M: Byte := 0x6d    // 'm'
  const ZERO: Byte := 0x30       // '0'

  const KEY_LEFT := 0xffff - 23
  const KEY_RIGHT := 0xffff - 24
  const KEY_MIDDLE := 0xffff - 25
  const KEY_RELEASE := 0xffff - 26
  const KEY_WHEEL_UP := 0xffff - 27
  const KEY_WHEEL_DOWN := 0xffff - 28

  // ----- printing

  function Digits(n: nat): (r: seq<Byte>)
    ensures |r| >= 1 && forall i :: 0 <= i < |r| ==> ZERO <= r[i] <= ZERO + 9
  {
    if n < 10 then [ZERO + n] else Digits(n / 10) + [ZERO + n % 10]
  }

  function Backwards(s: seq<Byte>): (r: seq<Byte>)
    ensures |r| == |s| && forall i :: 0 <= i < |s| ==> r[i] == s[|s| - 1 - i]
  {
    seq(|s|, i requires 0 <= i < |s| => s[|s| - 1 - i])
  }

  function Pow10(k: nat): nat {
    if k == 0 then 1 else 10 * Pow10(k - 1)
  }

  lemma {:induction false} DigitsFit(n: nat, k: nat)
    requires n < Pow10(k) && k >= 1
    ensures |Digits(n)| <= k
  {
    if n >= 10 {
      DigitsFit(n / 10, k - 1);
    }
  }

  lemma {:induction false} TenDigits(n: nat)
    requires n < 0x1_0000_0000
    ensures |Digits(n)| <= 10
  {
    assert Pow10(2) == 100 && Pow10(4) == 100 * Pow10(2) && Pow10(6) == 100 * Pow10(4);
    assert Pow10(8) == 100 * Pow10(6) && Pow10(10) == 100 * Pow10(8);
    DigitsFit(n, 10);
  }

  /** The digits come out last first and are then reversed in place. */
  method ConvertNum(num: nat, buf: array<Byte>) returns (l: nat)
    requires num < 0x1_0000_0000 && buf.Length >= 10
    modifies buf
    ensures l == |Digits(num)| <= buf.Length && buf[..l] == Digits(num)
  {
    TenDigits(num);
    var n := num;
    l := 0;
    while true
      invariant l < 10 && l + |Digits(n)| <= 10
      invariant Digits(num) == Digits(n) + Backwards(buf[..l])
      decreases n
    {
      ghost var before := buf[..l];
      buf[l] := ZERO + n % 10;
      l := l + 1;
      assert buf[..l] == before + [ZERO + n % 10];
      assert Backwards(buf[..l]) == [ZERO + n % 10] + Backwards(before);
      n := n / 10;
      if n == 0 {
        break;
      }
    }
    ReverseFirst(buf, l);
  }

  method ReverseFirst(buf: array<Byte>, l: nat)
    requires l <= buf.Length
    modifies buf
    ensures buf[..l] == Backwards(old(buf[..l]))
  {
    var i := 0;
    while i < l / 2
      invariant 0 <= i <= l / 2
      invariant forall k :: 0 <= k < i ==> buf[k] == old(buf[l - 1 - k]) && buf[l - 1 - k] == old(buf[k])
      invariant forall k :: i <= k < l - i ==> buf[k] == old(buf[k])
    {
      var ch := buf[i];
      buf[i] := buf[l - 1 - i];
      buf[l - 1 - i] := ch;
      i := i + 1;
    }
  }

  // ----- parsing

  predicate IsDigit(c: Byte) {
    ZERO <= c <= ZERO + 9
  }

  /** Where the parse stopped: the numbers that ended, the one under way (-1 for none) and
      the last separator; or that this is no mouse report. */
  datatype Parsed = Parsed(i: nat, nums: seq<int>, cur: int, trail: Byte) | Failed

  /** The loop that reads %d;%d;%d[mM]. */
  function ParseNums(buf: seq<Byte>, i: nat, nums: seq<int>, cur: int, trail: Byte): (r: Parsed)
    requires i <= |buf| && |nums| <= 3
    ensures r.Parsed? ==> i <= r.i <= |buf| && |nums| <= |r.nums| <= 3 && (|r.nums| < 3 ==> r.i == |buf|)
    decreases |buf| - i
  {
    if i < |buf| && |nums| < 3 then
      var c := buf[i];
      if IsDigit(c) then
        ParseNums(buf, i + 1, nums, (if cur == -1 then 0 else cur) * 10 + (c - ZERO), trail)
      else if cur != -1 && ((|nums| < 2 && c == SEMICOLON) || (|nums| == 2 && (c == LOWER_M || c == UPPER_M))) then
        ParseNums(buf, i + 1, nums + [cur], -1, c)
      else Failed
    else Parsed(i, nums, cur, trail)
  }

  datatype Report = Report(key: nat, motion: bool, x: int, y: int, length: nat) | NeedMore | NotMouse

  /** Bit n of a two's complement number, as `b & n` with n a power of two. */
  predicate BitSet(b: int, n: nat)
    requires n > 0
  {
    (b / n) % 2 == 1
  }

  function ButtonKey(b: int): nat {
    match b % 4
    case 0 => if BitSet(b, 64) then KEY_WHEEL_UP else KEY_LEFT
    case 1 => if BitSet(b, 64) then KEY_WHEEL_DOWN else KEY_MIDDLE
    case 2 => KEY_RIGHT
    case _ => KEY_RELEASE
  }

  function FromOne(n: int): int {
    if n - 1 < 0 then 0 else n - 1
  }

  /** extract_esc_mouse */
  function ParseMouse(buf: seq<Byte>): (r: Report)
    ensures r.Report? ==> 3 <= r.length <= |buf|
  {
    if |buf| < 2 then NeedMore
    else if buf[1] != BRACKET then NotMouse
    else if |buf| < 3 then NeedMore
    else if buf[2] == UPPER_M then
      if |buf| < 6 then NeedMore
      else
        var b: int := buf[3] as int - 0x20;
        Report(ButtonKey(b), BitSet(b, 32), buf[4] as int - 0x21, buf[5] as int - 0x21, 6)
    else
      var sgr := buf[2] == LESS;
      var p := ParseNums(buf, if sgr then 3 else 2, [], -1, 0x20);
      if p == Failed then NotMouse
      else if |p.nums| < 3 then NeedMore
      else
        var b := if sgr then p.nums[0] else p.nums[0] - 0x20;
        var key := if p.trail == LOWER_M then KEY_RELEASE else ButtonKey(b);
        Report(key, BitSet(b, 32), FromOne(p.nums[1]), FromOne(p.nums[2]), p.i)
  }

  method ExtractNums(buf: seq<Byte>, start: nat) returns (p: Parsed)
    requires start <= |buf|
    ensures p == ParseNums(buf, start, [], -1, 0x20)
  {
    var i, nums, cur: int, trail: Byte := start, [], -1, 0x20;
    while i < |buf| && |nums| < 3
      invariant start <= i <= |buf| && |nums| <= 3
      invariant ParseNums(buf, start, [], -1, 0x20) == ParseNums(buf, i, nums, cur, trail)
    {
      var c := buf[i];
      if ZERO <= c <= ZERO + 9 {
        if cur == -1 {
          cur := 0;
        }
        cur := cur * 10;
        cur := cur + (c - ZERO);
      } else if cur != -1 && ((|nums| < 2 && c == SEMICOLON) || (|nums| == 2 && (c == LOWER_M || c == UPPER_M))) {
        nums := nums + [cur];
        cur := -1;
        trail := c;
      } else {
        return Failed;
      }
      i := i + 1;
    }
    return Parsed(i, nums, cur, trail);
  }

  /** The report at the front of buf. */
  method ReadReport(buf: seq<Byte>) returns (r: Report)
    ensures r == ParseMouse(buf)
  {
    if |buf| < 2 {
      return NeedMore;
    } else if buf[1] != BRACKET {
      return NotMouse;
    } else if |buf| < 3 {
      return NeedMore;
    }
    if buf[2] == UPPER_M {
      if |buf| < 6 {
        return NeedMore;
      }
      var b: int := buf[3] as int - 0x20;
      return Report(ButtonKey(b), BitSet(b, 32), buf[4] as int - 0x21, buf[5] as int - 0x21, 6);
    }
    var sgr := buf[2] == LESS;
    var p := ExtractNums(buf, if sgr then 3 else 2);
    if p.Failed? {
      return NotMouse;
    } else if |p.nums| < 3 {
      return NeedMore;
    }
    var b := if sgr then p.nums[0] else p.nums[0] - 0x20;
    var key := if p.trail == LOWER_M then KEY_RELEASE else ButtonKey(b);
    return Report(key, BitSet(b, 32), FromOne(p.nums[1]), FromOne(p.nums[2]), p.i);
  }

  // ----- round trip

  /** What the user does, with the buttons of a tilting wheel. */
  datatype Button = Left | Middle | Right | Release | WheelUp | WheelDown | TiltLeft | TiltRight

  /** The button code that terminals send: low is any of the bits 4, 8 and 16 (shift, meta and
      control), and high are all the bits from 128 on. */
  function Code(button: Button, low: nat, motion: bool, high: nat): nat {
    var base := match button
      case Left => 0
      case Middle => 1
      case Right => 2
      case Release => 3
      case WheelUp => 64
      case WheelDown => 65
      case TiltLeft => 66
      case TiltRight => 67;
    base + low * 4 + (if motion then 32 else 0) + high * 128
  }

  /** TB_KEY_MOUSE_*; tilting is reported as the right button and as a release. */
  function KeyOf(button: Button): nat {
    match button
    case Left => 0xffff - 23
    case Right => 0xffff - 24
    case Middle => 0xffff - 25
    case Release => 0xffff - 26
    case WheelUp => 0xffff - 27
    case WheelDown => 0xffff - 28
    case TiltLeft => 0xffff - 24
    case TiltRight => 0xffff - 26
  }

  lemma {:induction false} Bits(button: nat, low: nat, motion: nat, wheel: nat, high: nat, b: int)
    requires button < 4 && low < 8 && motion < 2 && wheel < 2
    requires b == button + 4 * low + 32 * motion + 64 * wheel + 128 * high
    ensures b % 4 == button && (b / 32) % 2 == motion && (b / 64) % 2 == wheel
  {
    assert b / 32 == motion + 2 * wheel + 4 * high;
    assert b / 64 == wheel + 2 * high;
  }

  lemma {:induction false} KeyOfCode(button: Button, low: nat, motion: bool, high: nat, b: int)
    requires low < 8 && b == Code(button, low, motion, high)
    ensures ButtonKey(b) == KeyOf(button) && BitSet(b, 32) == motion
  {
    var base := Code(button, 0, false, 0);
    Bits(base % 4, low, if motion then 1 else 0, base / 64, high, b);
  }

  function Field(n: nat, c: Byte): seq<Byte> {
    Digits(n) + [c]
  }

  /** The three forms of a report, as a terminal prints them. */
  function X10Report(b: Byte, x: Byte, y: Byte): seq<Byte> {
    [0x1b, 0x5b, 0x4d, b, x, y]
  }

  function SgrReport(b: nat, x: nat, y: nat, trail: Byte): seq<Byte> {
    [0x1b, 0x5b, 0x3c] + Field(b, 0x3b) + Field(x, 0x3b) + Field(y, trail)
  }

  function UrxvtReport(b: nat, x: nat, y: nat): seq<Byte> {
    [0x1b, 0x5b] + Field(b, 0x3b) + Field(x, 0x3b) + Field(y, 0x4d)
  }

  function Value(s: seq<Byte>): int {
    if s == [] then 0 else Value(s[..|s| - 1]) * 10 + ((s[|s| - 1] as int) - 48)
  }

  /** The digits are the decimal ones, without leading zeros. */
  lemma {:induction false} DigitsValue(n: nat)
    ensures Value(Digits(n)) == n && (n > 0 ==> Digits(n)[0] != 48)
    ensures forall i :: 0 <= i < |Digits(n)| ==> 48 <= Digits(n)[i] <= 57
  {
    if n >= 10 {
      DigitsValue(n / 10);
      assert Digits(n)[..|Digits(n)| - 1] == Digits(n / 10);
    } else {
      assert Digits(n)[..0] == [];
    }
  }

  predicate Decimal(d: seq<Byte>) {
    d != [] && forall i :: 0 <= i < |d| ==> 48 <= d[i] <= 57
  }

  /** Three decimal numbers, leading zeros included, between h and the final letter. */
  function ThreeNumbers(h: seq<Byte>, a: seq<Byte>, b: seq<Byte>, c: seq<Byte>, t: Byte): seq<Byte> {
    h + (a + [0x3b]) + (b + [0x3b]) + (c + [t])
  }

  /** The parser's value of a run of digits. */
  lemma {:induction false} ParseRun(pre: seq<Byte>, d: seq<Byte>, post: seq<Byte>, nums: seq<int>, trail: Byte)
    requires |nums| < 3 && Decimal(d)
    ensures Value(d) >= 0
    ensures var buf := pre + d + post;
            ParseNums(buf, |pre|, nums, -1, trail) == ParseNums(buf, |pre| + |d|, nums, Value(d), trail)
    decreases |d|
  {
    var n := |d| - 1;
    var buf := pre + d + post;
    assert buf[|pre| + n] == d[n];
    if n == 0 {
      assert d[..0] == [] && Value(d[..0]) == 0;
    } else {
      assert buf == pre + d[..n] + ([d[n]] + post);
      ParseRun(pre, d[..n], [d[n]] + post, nums, trail);
    }
  }

  lemma {:induction false} ParseRunField(pre: seq<Byte>, d: seq<Byte>, c: Byte, post: seq<Byte>, nums: seq<int>,
          trail: Byte)
    requires |nums| < 3 && Decimal(d) && if |nums| < 2 then c == SEMICOLON else c == LOWER_M || c == UPPER_M
    ensures var buf := pre + (d + [c]) + post;
            ParseNums(buf, |pre|, nums, -1, trail) == ParseNums(buf, |pre + (d + [c])|, nums + [Value(d)], -1, c)
  {
    var buf := pre + (d + [c]) + post;
    assert buf == pre + d + ([c] + post);
    ParseRun(pre, d, [c] + post, nums, trail);
    assert buf[|pre| + |d|] == c;
  }

  lemma {:induction false} ParseNumeric(h: seq<Byte>, a: seq<Byte>, b: seq<Byte>, c: seq<Byte>, t: Byte,
          rest: seq<Byte>)
    requires Decimal(a) && Decimal(b) && Decimal(c) && (t == 0x4d || t == 0x6d)
    ensures var m := ThreeNumbers(h, a, b, c, t);
            ParseNums(m + rest, |h|, [], -1, 0x20) == Parsed(|m|, [Value(a), Value(b), Value(c)], -1, t)
  {
    var f, g, e := a + [SEMICOLON], b + [SEMICOLON], c + [t];
    var buf := ThreeNumbers(h, a, b, c, t) + rest;
    assert buf == h + f + (g + e + rest);
    ParseRunField(h, a, SEMICOLON, g + e + rest, [], 0x20);
    assert buf == (h + f) + g + (e + rest);
    ParseRunField(h + f, b, SEMICOLON, e + rest, [Value(a)], SEMICOLON);
    assert buf == (h + f + g) + e + rest;
    ParseRunField(h + f + g, c, t, rest, [Value(a), Value(b)], SEMICOLON);
    assert [Value(a)] + [Value(b)] == [Value(a), Value(b)] && [] + [Value(a)] == [Value(a)];
    assert [Value(a), Value(b)] + [Value(c)] == [Value(a), Value(b), Value(c)];
  }

  /** Three printed numbers behind h. */
  lemma {:induction false} ParseThree(h: seq<Byte>, b: nat, x: nat, y: nat, trail: Byte, rest: seq<Byte>)
    requires trail == UPPER_M || trail == LOWER_M
    ensures var m := h + Field(b, SEMICOLON) + Field(x, SEMICOLON) + Field(y, trail);
            ParseNums(m + rest, |h|, [], -1, 0x20) == Parsed(|m|, [b, x, y], -1, trail)
  {
    DigitsValue(b);
    DigitsValue(x);
    DigitsValue(y);
    ParseNumeric(h, Digits(b), Digits(x), Digits(y), trail, rest);
  }

  /** A 1006 report gives the button (a release if it ends in m), whether the mouse moves, and the
      place counted from zero, whatever bytes follow, and is consumed exactly. */
  lemma {:induction false} ParseSgr(button: Button, low: nat, motion: bool, high: nat, x: nat, y: nat, released: bool,
          rest: seq<Byte>)
    requires low < 8
    ensures var m := SgrReport(Code(button, low, motion, high), x, y, if released then 0x6d else 0x4d);
            ParseMouse(m + rest) == Report(if released then 0xffff - 26 else KeyOf(button), motion,
                                           if x == 0 then 0 else x - 1, if y == 0 then 0 else y - 1, |m|)
  {
    var b := Code(button, low, motion, high);
    var buf := SgrReport(b, x, y, if released then 0x6d else 0x4d) + rest;
    assert buf[1] == BRACKET && buf[2] == LESS;
    ParseThree([0x1b, 0x5b, 0x3c], b, x, y, if released then 0x6d else 0x4d, rest);
    KeyOfCode(button, low, motion, high, b);
  }

  /** A 1015 report: the button code is sent with 32 added to it. */
  lemma {:induction false} ParseUrxvt(button: Button, low: nat, motion: bool, high: nat, x: nat, y: nat,
          rest: seq<Byte>)
    requires low < 8
    ensures var m := UrxvtReport(Code(button, low, motion, high) + 0x20, x, y);
            ParseMouse(m + rest) == Report(KeyOf(button), motion,
                                           if x == 0 then 0 else x - 1, if y == 0 then 0 else y - 1, |m|)
  {
    var b := Code(button, low, motion, high);
    var m := UrxvtReport(b + 0x20, x, y);
    var buf := m + rest;
    assert buf[1] == BRACKET && buf[2] == Digits(b + 0x20)[0];
    ParseThree([0x1b, 0x5b], b + 0x20, x, y, 0x4d, rest);
    KeyOfCode(button, low, motion, high, b);
  }

  /** An X10 report: one byte each for the code and the place, which counts from 33. */
  lemma {:induction false} ParseX10(button: Button, low: nat, motion: bool, high: nat, x: int, y: int, rest: seq<Byte>)
    requires low < 8 && Code(button, low, motion, high) < 224 && -33 <= x < 223 && -33 <= y < 223
    ensures var m := X10Report(Code(button, low, motion, high) + 32, x + 33, y + 33);
            ParseMouse(m + rest) == Report(KeyOf(button), motion, x, y, 6)
  {
    var b := Code(button, low, motion, high);
    var buf := X10Report(b + 32, x + 33, y + 33) + rest;
    assert buf[1] == BRACKET && buf[2] == UPPER_M && buf[3] == b + 32 && buf[4] == x + 33 && buf[5] == y + 33;
    KeyOfCode(button, low, motion, high, b);
  }

  /** A parse cut short neither fails nor finishes. */
  lemma {:induction false} ParseCut(buf: seq<Byte>, k: nat, i: nat, nums: seq<int>, cur: int, trail: Byte)
    requires i <= k <= |buf| && |nums| <= 3
    requires var r := ParseNums(buf, i, nums, cur, trail); r.Parsed? && |r.nums| == 3 && k < r.i
    ensures var r := ParseNums(buf[..k], i, nums, cur, trail); r.Parsed? && |r.nums| < 3
    decreases |buf| - i
  {
    if i < k && |nums| < 3 {
      var c := buf[i];
      assert buf[..k][i] == c;
      if IsDigit(c) {
        ParseCut(buf, k, i + 1, nums, (if cur == -1 then 0 else cur) * 10 + (c - ZERO), trail);
      } else {
        ParseCut(buf, k, i + 1, nums + [cur], -1, c);
      }
    }
  }

  /** Every nonempty proper prefix of a report asks for more, in all three forms. */
  lemma {:induction false} PrefixNeedsMore(b: nat, x: nat, y: nat, trail: Byte, k: nat)
    requires trail == UPPER_M || trail == LOWER_M
    requires 0 < k < |SgrReport(b, x, y, trail)|
    ensures ParseMouse(SgrReport(b, x, y, trail)[..k]) == NeedMore
  {
    var m := SgrReport(b, x, y, trail);
    assert m[1] == BRACKET && m[2] == LESS;
    if k >= 3 {
      ParseThree([0x1b, 0x5b, 0x3c], b, x, y, trail, []);
      assert m + [] == m;
      ParseCut(m, k, 3, [], -1, 0x20);
    }
  }

  lemma {:induction false} PrefixOfUrxvt(b: nat, x: nat, y: nat, k: nat)
    requires 0 < k < |UrxvtReport(b, x, y)|
    ensures ParseMouse(UrxvtReport(b, x, y)[..k]) == NeedMore
  {
    var m := UrxvtReport(b, x, y);
    assert m[1] == BRACKET && m[2] == Digits(b)[0];
    if k >= 3 {
      ParseThree([0x1b, 0x5b], b, x, y, 0x4d, []);
      assert m + [] == m;
      ParseCut(m, k, 2, [], -1, 0x20);
    }
  }

  lemma {:induction false} PrefixOfX10(b: Byte, x: Byte, y: Byte, k: nat)
    requires 0 < k < 6
    ensures ParseMouse(X10Report(b, x, y)[..k]) == NeedMore
  {
  }

  // ----- what is a report

  ghost predicate StartsNumeric(buf: seq<Byte>, h: seq<Byte>) {
    exists a, b, c, t ::
      Decimal(a) && Decimal(b) && Decimal(c) && (t == 0x4d || t == 0x6d) && ThreeNumbers(h, a, b, c, t) <= buf
  }

  /** A parse that gets to a third number has gone through a number and its separator. */
  lemma {:induction false} FieldRead(buf: seq<Byte>, i: nat, nums: seq<int>, cur: int, trail: Byte)
    returns (j: nat, v: int, c: Byte)
    requires i <= |buf| && |nums| < 3 && (cur == -1 || cur >= 0)
    requires var r := ParseNums(buf, i, nums, cur, trail); r.Parsed? && |r.nums| == 3
    ensures i <= j < |buf| && (forall n :: i <= n < j ==> 48 <= buf[n] <= 57) && (cur == -1 ==> i < j)
    ensures buf[j] == c && if |nums| < 2 then c == 0x3b else c == 0x4d || c == 0x6d
    ensures ParseNums(buf, i, nums, cur, trail) == ParseNums(buf, j + 1, nums + [v], -1, c)
    decreases |buf| - i
  {
    if IsDigit(buf[i]) {
      j, v, c := FieldRead(buf, i + 1, nums, (if cur == -1 then 0 else cur) * 10 + (buf[i] - ZERO), trail);
    } else {
      j, v, c := i, cur, buf[i];
    }
  }

  lemma {:induction false} Parts(buf: seq<Byte>, h: seq<Byte>, a: seq<Byte>, b: seq<Byte>, c: seq<Byte>, t: Byte)
    requires Decimal(a) && Decimal(b) && Decimal(c) && (t == 0x4d || t == 0x6d) && h <= buf
    requires var i := |h| + |a| + 1; i <= |buf| && buf[|h|..i] == a + [0x3b]
    requires var i := |h| + |a| + |b| + 2; i <= |buf| && buf[|h| + |a| + 1..i] == b + [0x3b]
    requires var i := |h| + |a| + |b| + |c| + 3; i <= |buf| && buf[|h| + |a| + |b| + 2..i] == c + [t]
    ensures StartsNumeric(buf, h)
  {
    assert ThreeNumbers(h, a, b, c, t) <= buf;
  }

  lemma {:induction false} NumbersRead(buf: seq<Byte>, h: seq<Byte>)
    requires h <= buf
    requires var r := ParseNums(buf, |h|, [], -1, 0x20); r.Parsed? && |r.nums| == 3
    ensures StartsNumeric(buf, h)
  {
    var i, v, s := FieldRead(buf, |h|, [], -1, 0x20);
    var j, w, s' := FieldRead(buf, i + 1, [] + [v], -1, s);
    var k, _, t := FieldRead(buf, j + 1, [] + [v] + [w], -1, s');
    Parts(buf, h, buf[|h|..i], buf[i + 1..j], buf[j + 1..k], t);
  }

  /** extract_esc_mouse finds a report exactly where one of the three forms begins the input. */
  lemma {:induction false} ReportsExactly(buf: seq<Byte>)
    ensures ParseMouse(buf).Report? <==>
            && |buf| >= 3 && buf[1] == 0x5b
            && if buf[2] == 0x4d then |buf| >= 6
               else StartsNumeric(buf, if buf[2] == 0x3c then buf[..3] else buf[..2])
  {
    if |buf| >= 3 && buf[1] == 0x5b && buf[2] != 0x4d {
      var h := if buf[2] == 0x3c then buf[..3] else buf[..2];
      if StartsNumeric(buf, h) {
        var a, b, c, t :| Decimal(a) && Decimal(b) && Decimal(c) && (t == 0x4d || t == 0x6d) &&
                          ThreeNumbers(h, a, b, c, t) <= buf;
        var m := ThreeNumbers(h, a, b, c, t);
        assert buf == m + buf[|m|..];
        ParseNumeric(h, a, b, c, t, buf[|m|..]);
      }
      if ParseMouse(buf).Report? {
        NumbersRead(buf, h);
      }
    }
  }
}
