/** Fixed-width integers and the little-endian byte order used by registers, queue entries and key records. */
module Bytes {

  type byte = x: int | 0 <= x < 0x100
  type u16 = x: int | 0 <= x < 0x1_0000
  type u32 = x: int | 0 <= x < 0x1_0000_0000
  type u64 = x: int | 0 <= x < 0x1_0000_0000_0000_0000

  const TWO16 := 0x1_0000
  const TWO32 := 0x1_0000_0000
  const TWO64 := 0x1_0000_0000_0000_0000

  function Min(a: nat, b: nat): nat { if a < b then a else b }

  function Max(a: nat, b: nat): nat { if a < b then b else a }

  function Zeros(n: nat): (z: seq<byte>)
    ensures |z| == n && forall i :: 0 <= i < n ==> z[i] == 0
  {
    seq(n, i => 0)
  }

  lemma TailConcat<T>(a: seq<T>, b: seq<T>)
    requires a != []
    ensures (a + b)[0] == a[0] && (a + b)[1..] == a[1..] + b
  {
  }

  predicate InRange(x: int, at: int, len: int) { at <= x < at + len }

  function Poke(mem: seq<byte>, at: nat, d: seq<byte>): (r: seq<byte>)
    requires at + |d| <= |mem|
    ensures |r| == |mem|
    ensures forall x :: 0 <= x < |mem| ==> r[x] == if InRange(x, at, |d|) then d[x - at] else mem[x]
  {
    seq(|mem|, x requires 0 <= x < |mem| => if InRange(x, at, |d|) then d[x - at] else mem[x])
  }

  function Peek(mem: seq<byte>, at: nat, len: nat): (d: seq<byte>)
    requires at + len <= |mem|
    ensures |d| == len
    ensures forall i :: 0 <= i < len ==> d[i] == mem[at + i]
  {
    seq(len, i requires 0 <= i < len => mem[at + i])
  }

  lemma PokeSplit(mem: seq<byte>, at: nat, d: seq<byte>, c: nat)
    requires at + |d| <= |mem| && c <= |d|
    ensures Poke(Poke(mem, at, d[..c]), at + c, d[c..]) == Poke(mem, at, d)
  {
    var r := Poke(Poke(mem, at, d[..c]), at + c, d[c..]);
    assert forall x :: 0 <= x < |mem| ==> r[x] == Poke(mem, at, d)[x];
  }

  lemma PeekSplit(mem: seq<byte>, at: nat, len: nat, c: nat)
    requires at + len <= |mem| && c <= len
    ensures Peek(mem, at, len) == Peek(mem, at, c) + Peek(mem, at + c, len - c)
  {
  }

  lemma PeekWritten(mem: seq<byte>, at: nat, d: seq<byte>)
    requires at + |d| <= |mem|
    ensures Peek(Poke(mem, at, d), at, |d|) == d
  {
    var m := Poke(mem, at, d);
    forall i | 0 <= i < |d| ensures Peek(m, at, |d|)[i] == d[i] {
      assert InRange(at + i, at, |d|);
    }
  }

  lemma PeekPast(mem: seq<byte>, at: nat, d: seq<byte>, x: nat, n: nat)
    requires at + |d| <= |mem| && x + n <= |mem| && (x + n <= at || at + |d| <= x)
    ensures Peek(Poke(mem, at, d), x, n) == Peek(mem, x, n)
  {
  }

  function Pow256(n: nat): (p: nat)
    ensures p > 0
  {
    if n == 0 then 1 else 256 * Pow256(n - 1)
  }

  lemma {:induction false} Pow256Add(m: nat, n: nat)
    ensures Pow256(m + n) == Pow256(m) * Pow256(n)
  {
    if m > 0 {
      Pow256Add(m - 1, n);
    }
  }

  lemma Pow256Widths()
    ensures Pow256(1) == 0x100 && Pow256(2) == TWO16 && Pow256(4) == TWO32 && Pow256(8) == TWO64
  {
    assert Pow256(3) == 256 * Pow256(2);
    assert Pow256(5) == 256 * Pow256(4);
    assert Pow256(7) == 256 * Pow256(6);
  }

  // The number whose little-endian digits are b.
  function RdLe(b: seq<byte>): (v: nat)
    ensures v < Pow256(|b|)
  {
    if b == [] then 0 else b[0] + 256 * RdLe(b[1..])
  }

  // The n low little-endian digits of v.
  function WrLe(n: nat, v: nat): (b: seq<byte>)
    ensures |b| == n
  {
    if n == 0 then [] else [v % 256] + WrLe(n - 1, v / 256)
  }

  lemma {:induction false} WriteThenRead(n: nat, v: nat)
    ensures RdLe(WrLe(n, v)) == v % Pow256(n)
  {
    if n > 0 {
      WriteThenRead(n - 1, v / 256);
      assert WrLe(n, v)[1..] == WrLe(n - 1, v / 256);
      LowDigitsStep(v, Pow256(n - 1));
    }
  }

  // The low n digits are the lowest digit and the low n - 1 digits of the rest.
  lemma LowDigitsStep(v: nat, p: nat)
    requires p > 0
    ensures v % (256 * p) == v % 256 + 256 * (v / 256 % p)
  {
    var q, r := v / 256 / p, v / 256 % p;
    assert v / 256 == p * q + r;
    assert v == (256 * p) * q + (v % 256 + 256 * r) by { Distribute(256, r, p, q); }
    DivModUnique(v, 256 * p, q, v % 256 + 256 * r);
  }

  lemma {:induction false} ReadThenWrite(b: seq<byte>)
    ensures WrLe(|b|, RdLe(b)) == b
  {
    if b != [] {
      ReadThenWrite(b[1..]);
      assert b == [b[0]] + b[1..];
    }
  }

  lemma {:induction false} ReadConcat(a: seq<byte>, b: seq<byte>)
    ensures RdLe(a + b) == RdLe(a) + Pow256(|a|) * RdLe(b)
  {
    if a == [] {
      assert a + b == b;
    } else {
      var p, x, y := Pow256(|a| - 1), RdLe(a[1..]), RdLe(b);
      assert RdLe(a + b) == a[0] + 256 * (x + p * y) by {
        ReadConcat(a[1..], b);
        assert (a + b)[1..] == a[1..] + b;
      }
      Distribute(256, x, p, y);
    }
  }

  lemma Distribute(c: int, x: int, p: int, y: int)
    ensures c * (x + p * y) == c * x + (c * p) * y
  {
  }

  lemma DivModUnique(v: int, d: int, q: int, r: int)
    requires d > 0 && 0 <= r < d && v == d * q + r
    ensures v / d == q && v % d == r
  {
    var e := v / d - q;
    assert d * e == d * (v / d) - d * q;
    assert -d < d * e < d;
    NoMultipleBetween(d, e);
  }

  lemma NoMultipleBetween(d: int, e: int)
    requires d > 0 && -d < d * e < d
    ensures e == 0
  {
  }

  // rd_le: every byte is shifted to its own position, so the bits never overlap and `|` is `+`.
  method ReadLe(b: seq<byte>) returns (v: nat)
    requires |b| <= 8
    ensures v == RdLe(b)
    ensures v < TWO64
  {
    v := 0;
    for i := 0 to |b|
      invariant v == RdLe(b[..i])
    {
      assert b[..i + 1] == b[..i] + [b[i]];
      ReadConcat(b[..i], [b[i]]);
      assert RdLe([b[i]]) == b[i] by { assert [b[i]][1..] == []; }
      v := v + Pow256(i) * b[i];
    }
    assert b[..|b|] == b;
    PowBound(|b|);
  }

  lemma PowBound(n: nat)
    requires n <= 8
    ensures Pow256(n) <= TWO64
  {
    Pow256Add(n, 8 - n);
    Pow256Widths();
    assert Pow256(n) * 1 <= Pow256(n) * Pow256(8 - n);
  }

  // wr_le, into a caller's buffer at a given offset.
  method WriteLe(b: array<byte>, at: nat, n: nat, v: nat)
    requires at + n <= b.Length
    modifies b
    ensures b[..] == Poke(old(b[..]), at, WrLe(n, v))
  {
    ghost var was, d := b[..], WrLe(n, v);
    var w := v;
    for i := 0 to n
      invariant d[i..] == WrLe(n - i, w)
      invariant forall j :: 0 <= j < b.Length ==> b[j] == if at <= j < at + i then d[j - at] else was[j]
    {
      assert d[i..][0] == w % 256 && d[i..][1..] == d[i + 1..];
      b[at + i] := w % 256;
      w := w / 256;
    }
    assert b[..] == Poke(was, at, d);
  }
}
