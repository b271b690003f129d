/**
 struct bytebuf: a byte queue in one allocation that doubles. The ghost fields record the
 whole history, and Valid() says what holds of it after any run of calls.
 */
module ByteBuf {
  import opened Utf8

  ghost predicate PowerOfTwo(n: nat) {
    n == 1 || (n > 1 && n % 2 == 0 && PowerOfTwo(n / 2))
  }

  /** The capacity after doubling until sz fits. */
  function Doubled(cap: nat, sz: nat): (r: nat)
    requires cap >= 1
    ensures r >= sz && r >= cap
    ensures cap < sz ==> 2 * cap <= r < 2 * sz
    decreases sz - cap
  {
    if cap >= sz then cap else Doubled(2 * cap, sz)
  }

  lemma {:induction false} DoublePower(n: nat)
    requires PowerOfTwo(n)
    ensures PowerOfTwo(2 * n)
  {
    assert (2 * n) / 2 == n;
  }

  lemma {:induction false} DoubledPower(cap: nat, sz: nat)
    requires cap >= 1 && PowerOfTwo(cap)
    ensures PowerOfTwo(Doubled(cap, sz))
    decreases sz - cap
  {
    if cap < sz {
      DoublePower(cap);
      DoubledPower(2 * cap, sz);
    }
  }

  function Max(a: nat, b: nat): nat {
    if a > b then a else b
  }

  /** memcpy, and the NUL that is written behind the copy. */
  method MemCpy(a: array<Byte>, at: nat, str: seq<Byte>)
    requires at + |str| < a.Length
    modifies a
    ensures a[..at + |str|] == old(a[..at]) + str
  {
    forall i | 0 <= i < |str| {
      a[at + i] := str[i];
    }
    a[at + |str|] := 0;
  }

  /** memmove from behind to the start. */
  method MemMove(a: array<Byte>, from: nat, n: nat)
    requires from + n <= a.Length
    modifies a
    ensures a[..n] == old(a[from..from + n])
  {
    forall i | 0 <= i < n {
      a[i] := a[from + i];
    }
  }

  /** realloc, of which the first len bytes matter. */
  method Realloc(a: array<Byte>, newcap: nat, len: nat) returns (r: array<Byte>)
    requires len <= a.Length <= newcap
    ensures fresh(r) && r.Length == newcap && r[..len] == a[..len]
  {
    r := new Byte[newcap];
    forall i | 0 <= i < a.Length {
      r[i] := a[i];
    }
  }

  lemma {:induction false} Regroup(removed: seq<Byte>, held: seq<Byte>, str: seq<Byte>)
    ensures removed + (held + str) == (removed + held) + str
  {
  }

  lemma {:induction false} MoveOut(removed: seq<Byte>, held: seq<Byte>, m: nat)
    requires m <= |held|
    ensures (removed + held[..m]) + held[m..] == removed + held
  {
  }

  class Buffer {
    var buf: array<Byte>
    var len: nat
    ghost var appended: seq<Byte>  // every byte ever put in
    ghost var removed: seq<Byte>   // every byte ever taken out
    ghost var peak: nat            // the largest size reserved so far
    ghost var requested: nat       // the sum of all capacities ever requested

    ghost predicate Valid()
      reads this, buf
    {
      && len <= buf.Length
      && removed + buf[..len] == appended
      && requested <= 2 * buf.Length && Bounded()
    }

    /** The memory in use, and all memory ever asked for, are linear in the largest size reserved. */
    ghost predicate Bounded()
      reads this
    {
      && (buf.Length == 0 || (PowerOfTwo(buf.Length) && buf.Length < 2 * peak))
      && (requested == 0 || requested < 4 * peak)
    }

    ghost function Contents(): (r: seq<Byte>)
      requires Valid()
      reads this, buf
      ensures |r| == len
    {
      buf[..len]
    }

    constructor ()
      ensures Valid() && fresh(buf) && Contents() == [] && appended == [] && removed == []
      ensures peak == 0 && requested == 0
    {
      buf := new Byte[0];
      len := 0;
      appended, removed, peak, requested := [], [], 0, 0;
    }

    /** bytebuf_reserve */
    method Reserve(sz: nat)
      requires Valid()
      modifies this`buf, this`peak, this`requested
      ensures Valid() && buf.Length >= sz && (buf == old(buf) || fresh(buf))
      ensures Contents() == old(Contents()) && peak == Max(old(peak), sz)
      ensures old(buf.Length) >= sz ==> buf == old(buf) && requested == old(requested)
    {
      peak := Max(peak, sz);
      if buf.Length >= sz {
        return;
      }
      var newcap := if buf.Length > 0 then buf.Length else 1;
      ghost var goal := Doubled(newcap, sz);
      DoubledPower(newcap, sz);
      while newcap < sz
        invariant newcap >= 1 && goal == Doubled(newcap, sz)
        decreases sz - newcap
      {
        newcap := newcap * 2;
      }
      buf := Realloc(buf, newcap, len);
      requested := requested + newcap;
    }

    /** bytebuf_nputs */
    method NPuts(str: seq<Byte>)
      requires Valid()
      modifies this, buf
      ensures Valid() && (buf == old(buf) || fresh(buf))
      ensures Contents() == old(Contents()) + str && appended == old(appended) + str && removed == old(removed)
      ensures peak == Max(old(peak), len + 1)
    {
      Regroup(removed, Contents(), str);
      Reserve(len + |str| + 1);
      MemCpy(buf, len, str);
      len := len + |str|;
      appended := appended + str;
    }

    /** bytebuf_shift: drop the first n bytes, or all. */
    method Shift(n: nat)
      requires Valid()
      modifies this`len, this`removed, buf
      ensures Valid() && buf == old(buf)
      ensures var m := if n > old(len) then old(len) else n;
              Contents() == old(Contents())[m..] && removed == old(removed) + old(Contents())[..m]
    {
      var m := if n > len then len else n;
      var nmove := len - m;
      MoveOut(removed, Contents(), m);
      removed := removed + Contents()[..m];
      MemMove(buf, m, nmove);
      len := nmove;
    }

    /** bytebuf_flush, when the write takes everything. */
    method Flush() returns (written: seq<Byte>)
      requires Valid()
      modifies this`len, this`removed
      ensures Valid() && buf == old(buf) && written == old(Contents()) && Contents() == []
      ensures removed == old(removed) + written
    {
      written := buf[..len];
      removed := removed + written;
      len := 0;
    }
  }
}
