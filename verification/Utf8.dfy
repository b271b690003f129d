/**
 tb_utf8_char_length, tb_utf8_char_to_unicode and tb_utf8_unicode_to_char: UTF-8 of up to six
 bytes (section 2 of RFC 2279). Masks and shifts are remainders and quotients: the bits that
 the source joins with `|` never overlap, so it adds.
 */
module Utf8 {
  import opened Terminal

  type Byte = x: int | 0 <= x < 256

  // ----- decoding

  /** utf8_length */
  function CharLength(b: Byte): (n: nat)
    ensures 1 <= n <= 6
  {
    if b < 0xc0 then 1
    else if b < 0xe0 then 2
    else if b < 0xf0 then 3
    else if b < 0xf8 then 4
    else if b < 0xfc then 5
    else if b < 0xfe then 6
    else 1
  }

  /** One more than utf8_mask[n - 1]. */
  function MaskRange(n: nat): nat
    requires 1 <= n <= 6
  {
    [0x80, 0x20, 0x10, 0x08, 0x04, 0x02][n - 1]
  }

  /** The value of the first n bytes: the lead byte's payload, then six bits a byte. */
  function Payload(s: seq<Byte>, n: nat): nat
    requires 1 <= n <= |s|
  {
    if n == 1 then s[0] % MaskRange(CharLength(s[0]))
    else Payload(s, n - 1) * 64 + s[n - 1] % 64
  }

  /** How far the loop gets that starts at byte i and stops at len, a NUL or the end. */
  function Reach(s: seq<Byte>, len: nat, i: nat): (r: nat)
    requires i <= len && i <= |s|
    ensures i <= r <= len && r <= |s|
    ensures len <= |s| && (forall j :: i <= j < len ==> s[j] != 0) ==> r == len
    decreases len - i
  {
    if i < len && i < |s| && s[i] != 0 then Reach(s, len, i + 1) else i
  }

  /** The result of tb_utf8_char_to_unicode and the code point it stores when that is positive. */
  datatype Decoded = Decoded(rv: int, ch: nat)

  function Decode(s: seq<Byte>): Decoded {
    if s == [] || s[0] == 0 then Decoded(0, 0)
    else
      var len := CharLength(s[0]);
      var i: int := Reach(s, len, 1);
      if i != len then Decoded(-i, 0) else Decoded(len, Payload(s, len))
  }

  /** The stored value always fits: no bit is shifted out of the 32-bit result. */
  lemma {:induction false} PayloadFits(s: seq<Byte>, n: nat)
    requires 1 <= n <= |s| && n <= CharLength(s[0])
    ensures n == 1 ==> Payload(s, n) < MaskRange(CharLength(s[0]))
    ensures Payload(s, n) < [0x80, 0x800, 0x2_0000, 0x80_0000, 0x2000_0000, 0x8000_0000][n - 1]
    ensures CharLength(s[0]) >= 2 ==>
            Payload(s, n) < [0x20, 0x800, 0x2_0000, 0x80_0000, 0x2000_0000, 0x8000_0000][n - 1]
    ensures CharLength(s[0]) == 6 ==> Payload(s, n) < [0x2, 0x80, 0x2000, 0x8_0000, 0x200_0000, 0x8000_0000][n - 1]
  {
    if n > 1 {
      PayloadFits(s, n - 1);
    }
  }

  method CharToUnicode(c: seq<Byte>) returns (rv: int, out: nat)
    ensures rv == Decode(c).rv && (rv > 0 ==> out == Decode(c).ch)
  {
    out := 0;
    if c == [] || c[0] == 0 {
      return 0, 0;
    }
    var len := CharLength(c[0]);
    var result := c[0] % MaskRange(len);
    var i := 1;
    while i < len && i < |c| && c[i] != 0
      invariant 1 <= i <= len && i <= |c|
      invariant result == Payload(c, i)
      invariant Reach(c, len, 1) == Reach(c, len, i)
    {
      result := result * 64;
      result := result + c[i] % 64;
      i := i + 1;
    }
    if i != len {
      return -i, 0;
    }
    return len, result;
  }

  // ----- encoding

  function EncodedLength(c: Rune): (n: nat)
    ensures 1 <= n <= 6
  {
    if c < 0x80 then 1
    else if c < 0x800 then 2
    else if c < 0x1_0000 then 3
    else if c < 0x20_0000 then 4
    else if c < 0x400_0000 then 5
    else 6
  }

  function FirstMark(n: nat): nat
    requires 1 <= n <= 6
  {
    [0, 0xc0, 0xe0, 0xf0, 0xf8, 0xfc][n - 1]
  }

  /** What is left of c after n shifts by six bits, and the n continuation bytes shifted out. */
  function Top(c: nat, n: nat): nat {
    if n == 0 then c else Top(c / 64, n - 1)
  }

  function Tail(c: nat, n: nat): (r: seq<Byte>)
    ensures |r| == n && forall i :: 0 <= i < n ==> 0x80 <= r[i] < 0xc0
  {
    if n == 0 then [] else Tail(c / 64, n - 1) + [c % 64 + 0x80]
  }

  lemma {:induction false} Shifts(c: nat)
    ensures Top(c, 0) == c && Top(c, 1) == c / 64 && Top(c, 2) == c / 64 / 64
    ensures Top(c, 3) == c / 64 / 64 / 64 && Top(c, 4) == c / 64 / 64 / 64 / 64
    ensures Top(c, 5) == c / 64 / 64 / 64 / 64 / 64
  {
    var d := c / 64;
    var e := d / 64;
    var f := e / 64;
    var g := f / 64;
    assert Top(g / 64, 0) == g / 64;
    assert Top(g, 0) == g && Top(g, 1) == g / 64;
    assert Top(f, 0) == f && Top(f, 1) == Top(g, 0) && Top(f, 2) == Top(g, 1);
    assert Top(e, 1) == Top(f, 0) && Top(e, 2) == Top(f, 1) && Top(e, 3) == Top(f, 2);
    assert Top(d, 0) == d && Top(d, 1) == Top(e, 0) == e;
    assert Top(d, 2) == Top(e, 1) && Top(d, 3) == Top(e, 2) && Top(d, 4) == Top(e, 3);
  }

  lemma {:induction false} TopFits(c: Rune)
    ensures var n := EncodedLength(c);
            FirstMark(n) + Top(c, n - 1) < if n == 6 then 0x100 else FirstMark(n) + MaskRange(n)
    ensures EncodedLength(c) == 6 ==> (Top(c, 5) < 2 <==> c < 0x8000_0000)
  {
    Shifts(c);
  }

  function Encode(c: Rune): (r: seq<Byte>)
    ensures |r| == EncodedLength(c)
    ensures forall i :: 1 <= i < |r| ==> 0x80 <= r[i] < 0xc0
  {
    TopFits(c);
    var n := EncodedLength(c);
    [FirstMark(n) + Top(c, n - 1)] + Tail(c, n - 1)
  }

  /** The length, and the bits that mark it in the lead byte. */
  method Header(c: Rune) returns (first: nat, len: nat)
    ensures len == EncodedLength(c) && first == FirstMark(len)
  {
    if c < 0x80 {
      first, len := 0, 1;
    } else if c < 0x800 {
      first, len := 0xc0, 2;
    } else if c < 0x1_0000 {
      first, len := 0xe0, 3;
    } else if c < 0x20_0000 {
      first, len := 0xf0, 4;
    } else if c < 0x400_0000 {
      first, len := 0xf8, 5;
    } else {
      first, len := 0xfc, 6;
    }
  }

  /** The loop: continuation bytes from the last to the first; what is left of c. */
  method PutTail(out: array<Byte>, c: nat, len: nat) returns (rest: nat)
    requires 1 <= len <= out.Length
    modifies out
    ensures rest == Top(c, len - 1) && out[1..len] == Tail(c, len - 1)
    ensures forall j :: len <= j < out.Length ==> out[j] == old(out[j])
  {
    rest := c;
    var i := len - 1;
    while i > 0
      invariant 0 <= i < len
      invariant Top(c, len - 1) == Top(rest, i)
      invariant Tail(c, len - 1) == Tail(rest, i) + out[i + 1..len]
      invariant forall j :: len <= j < out.Length ==> out[j] == old(out[j])
    {
      ghost var before, done := Tail(rest / 64, i - 1), out[i + 1..len];
      out[i] := rest % 64 + 0x80;
      assert before + [out[i]] + done == before + out[i..len];
      rest := rest / 64;
      i := i - 1;
    }
  }

  /** tb_utf8_unicode_to_char: the bytes and a terminator, into a buffer of at least seven. */
  method UnicodeToChar(out: array<Byte>, c: Rune) returns (len: nat)
    requires out.Length >= 7
    modifies out
    ensures len == |Encode(c)| && out[..len] == Encode(c) && out[len] == 0
    ensures forall i :: len < i < out.Length ==> out[i] == old(out[i])
  {
    var first;
    first, len := Header(c);
    TopFits(c);
    var rest := PutTail(out, c, len);
    ghost var tail := out[1..len];
    out[0] := rest + first;
    out[len] := 0;
    assert out[..len] == [out[0]] + tail;
  }

  // ----- round trip

  lemma {:induction false} PayloadPrefix(s: seq<Byte>, t: seq<Byte>, n: nat)
    requires 1 <= n <= |s|
    ensures Payload(s + t, n) == Payload(s, n)
  {
    if n > 1 {
      PayloadPrefix(s, t, n - 1);
    }
  }

  lemma {:induction false} PayloadOfTail(pre: seq<Byte>, c: nat, n: nat)
    requires |pre| >= 1 && Payload(pre, |pre|) == Top(c, n)
    ensures Payload(pre + Tail(c, n), |pre| + n) == c
  {
    if n == 0 {
      assert pre + Tail(c, 0) == pre;
    } else {
      PayloadOfTail(pre, c / 64, n - 1);
      var s := pre + Tail(c / 64, n - 1);
      assert pre + Tail(c, n) == s + [c % 64 + 0x80];
      PayloadPrefix(s, [c % 64 + 0x80], |s|);
    }
  }

  lemma {:induction false} LeadByte(c: Rune)
    requires 0 < c < 0x8000_0000
    ensures var b, n := Encode(c)[0], |Encode(c)|;
            b != 0 && CharLength(b) == n && b % MaskRange(n) == Top(c, n - 1)
  {
    TopFits(c);
  }

  /** Decoding undoes encoding whatever follows: so no encoding is a prefix of another. */
  lemma {:induction false} DecodeEncode(c: Rune, rest: seq<Byte>)
    requires 0 < c < 0x8000_0000
    ensures CharLength(Encode(c)[0]) == |Encode(c)|
    ensures Decode(Encode(c) + rest) == Decoded(|Encode(c)|, c)
  {
    LeadByte(c);
    var e := Encode(c);
    PayloadOfTail(e[..1], c, |e| - 1);
    assert e[..1] + Tail(c, |e| - 1) == e;
    PayloadPrefix(e, rest, |e|);
    var s := e + rest;
    assert forall j :: 1 <= j < |e| ==> s[j] == e[j];
  }

  /** The round trip holds exactly for the code points from 1 to 2^31 - 1. */
  lemma {:induction false} RoundTripExactly(c: Rune, rest: seq<Byte>)
    ensures Decode(Encode(c) + rest) == Decoded(|Encode(c)|, c) <==> 0 < c < 0x8000_0000
  {
    if 0 < c < 0x8000_0000 {
      DecodeEncode(c, rest);
    } else if c != 0 {
      var s := Encode(c) + rest;
      TopFits(c);
      assert CharLength(s[0]) == 1;
    }
  }

  /** Different code points have encodings that differ before either ends. */
  lemma {:induction false} PrefixFree(c: Rune, d: Rune, rest: seq<Byte>)
    requires 0 < c < 0x8000_0000 && 0 < d < 0x8000_0000 && Encode(c) <= Encode(d) + rest
    ensures c == d
  {
    var s := Encode(d) + rest;
    DecodeEncode(d, rest);
    assert s == Encode(c) + s[|Encode(c)|..];
    DecodeEncode(c, s[|Encode(c)|..]);
  }

  // ----- the bytes themselves

  /** Six bits a byte below the lead byte's, which are what its mark leaves. */
  function Sextets(e: seq<Byte>, mark: int, n: nat): int
    requires 1 <= n <= |e|
  {
    if n == 1 then (e[0] as int) - mark else Sextets(e, mark, n - 1) * 64 + ((e[n - 1] as int) - 0x80)
  }

  lemma {:induction false} SextetsOfTail(e: seq<Byte>, mark: int, c: nat, m: nat, n: nat)
    requires 1 <= m && m + n == |e| && e[m..] == Tail(c, n) && Sextets(e, mark, m) == Top(c, n)
    ensures Sextets(e, mark, |e|) == c
    decreases n
  {
    if n > 0 {
      TopOnce(c, n);
      assert e[m] == Tail(c, n)[0];
      TailFirst(c, n);
      assert e[m + 1..] == e[m..][1..];
      SextetsOfTail(e, mark, c, m + 1, n - 1);
    }
  }

  lemma {:induction false} TopOnce(c: nat, n: nat)
    requires n >= 1
    ensures Top(c, n) == Top(c, n - 1) / 64
    decreases n
  {
    if n > 1 {
      TopOnce(c / 64, n - 1);
    }
  }

  lemma {:induction false} TailFirst(c: nat, n: nat)
    requires n >= 1
    ensures Tail(c, n)[0] == Top(c, n - 1) % 64 + 0x80 && Tail(c, n)[1..] == Tail(c, n - 1)
    decreases n
  {
    if n > 1 {
      TailFirst(c / 64, n - 1);
      assert Tail(c, n)[1..] == Tail(c / 64, n - 1)[1..] + [c % 64 + 0x80];
    }
  }

  /** Section 2 of RFC 2279: the length, the mark of the lead byte and the ranges of the bytes,
      which together hold the bits of the code point. */
  lemma {:induction false} EncodeLayout(c: Rune)
    requires c < 0x8000_0000
    ensures var e := Encode(c);
            && (c < 0x80 ==> e == [c])
            && (0x80 <= c < 0x800 ==> |e| == 2 && 0xc0 <= e[0] < 0xe0 && Sextets(e, 0xc0, 2) == c)
            && (0x800 <= c < 0x1_0000 ==> |e| == 3 && 0xe0 <= e[0] < 0xf0 && Sextets(e, 0xe0, 3) == c)
            && (0x1_0000 <= c < 0x20_0000 ==> |e| == 4 && 0xf0 <= e[0] < 0xf8 && Sextets(e, 0xf0, 4) == c)
            && (0x20_0000 <= c < 0x400_0000 ==> |e| == 5 && 0xf8 <= e[0] < 0xfc && Sextets(e, 0xf8, 5) == c)
            && (0x400_0000 <= c ==> |e| == 6 && 0xfc <= e[0] < 0xfe && Sextets(e, 0xfc, 6) == c)
            && forall i :: 1 <= i < |e| ==> 0x80 <= e[i] < 0xc0
  {
    TopFits(c);
    var e, n := Encode(c), EncodedLength(c);
    assert e[1..] == Tail(c, n - 1) && Sextets(e, FirstMark(n), 1) == Top(c, n - 1);
    SextetsOfTail(e, FirstMark(n), c, 1, n - 1);
  }

  /** No input that is decoded to c is shorter than its encoding. */
  lemma {:induction false} ShortestForm(c: Rune, s: seq<Byte>)
    requires 0 < c < 0x8000_0000 && Decode(s).rv > 0 && Decode(s).ch == c
    ensures |Encode(c)| <= Decode(s).rv <= |s|
  {
    PayloadSmall(s, Decode(s).rv);
  }

  lemma {:induction false} PayloadSmall(s: seq<Byte>, n: nat)
    requires 1 <= n <= |s| && n <= CharLength(s[0])
    ensures CharLength(s[0]) == 1 ==> Payload(s, 1) < 0x80
    ensures CharLength(s[0]) == 2 ==> Payload(s, n) < [0x20, 0x800][n - 1]
    ensures CharLength(s[0]) == 3 ==> Payload(s, n) < [0x10, 0x400, 0x1_0000][n - 1]
    ensures CharLength(s[0]) == 4 ==> Payload(s, n) < [0x8, 0x200, 0x8000, 0x20_0000][n - 1]
    ensures CharLength(s[0]) == 5 ==> Payload(s, n) < [0x4, 0x100, 0x4000, 0x10_0000, 0x400_0000][n - 1]
  {
    if n > 1 {
      PayloadSmall(s, n - 1);
    }
  }

  /** A byte that starts no longer encoding stands for its low seven bits. */
  lemma {:induction false} DecodeOne(b: Byte, rest: seq<Byte>)
    requires 0 < b < 0xc0 || b >= 0xfe
    ensures Decode([b] + rest) == Decoded(1, if b < 0x80 then b else b - 0x80)
  {
  }

  /** When an encoding is cut short, by the end or by a NUL, the result is minus the number of
      bytes that are there, and no code point. */
  lemma {:induction false} DecodeCut(c: Rune, k: nat, rest: seq<Byte>)
    requires 0 < c < 0x8000_0000 && 0 < k < |Encode(c)| && (rest == [] || rest[0] == 0)
    ensures var d := Decode(Encode(c)[..k] + rest); d.rv + k == 0 && d.ch == 0
  {
    var s := Encode(c)[..k] + rest;
    LeadByte(c);
    assert s[0] == Encode(c)[0];
    ReachCut(s, |Encode(c)|, 1, k);
  }

  lemma {:induction false} ReachCut(s: seq<Byte>, len: nat, i: nat, k: nat)
    requires i <= k <= len && k <= |s| && (k < len && k < |s| ==> s[k] == 0)
    requires forall j :: i <= j < k ==> s[j] != 0
    ensures Reach(s, len, i) == k
    decreases k - i
  {
    if i < k {
      ReachCut(s, len, i + 1, k);
    }
  }

  lemma {:induction false} DecodeNothing(rest: seq<Byte>)
    ensures Decode([]) == Decoded(0, 0) && Decode([0] + rest) == Decoded(0, 0)
  {
    assert ([0] + rest)[0] == 0;
  }
}
